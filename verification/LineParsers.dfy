/** The lines of a sectioned WHOIS response, and the section that governs each of them. */
module Sections {
  datatype Body = Pair(key: string, value: string) | Bare(text: string) | Nothing

  /** `Top` stands for no section, `Other` for a section whose lines are not read. */
  datatype Section =
    | Top
    | Holder
    | AdminC
    | TechC
    | ZoneC
    | Registrant
    | Technical
    | Registrar
    | NameServers
    | KeyRecords
    | Dnssec
    | Other

  /** A content line either leaves the section in force (`stays`) or ends it. */
  datatype Line = Skip | Header(section: Section) | Content(stays: bool, body: Body)

  datatype KeyValue = KeyValue(key: string, value: string)

  function Classified(lines: seq<string>, classify: string -> Line): (ls: seq<Line>)
    ensures |ls| == |lines| && forall i :: 0 <= i < |ls| ==> ls[i] == classify(lines[i])
  {
    if lines == [] then [] else Classified(lines[..|lines| - 1], classify) + [classify(lines[|lines| - 1])]
  }

  /**
   After `n` lines the header at `h` is in force: it is the most recent one, and every content
   line behind it stays.
   */
  ghost predicate InForce(ls: seq<Line>, h: int, n: int) {
    && 0 <= h < n <= |ls| && ls[h].Header?
    && forall j :: h < j < n ==> !ls[j].Header? && (ls[j].Content? ==> ls[j].stays)
  }

  /** The section that governs after `n` lines; a content line `i` is governed by `Governing(ls, i + 1)`. */
  ghost function Governing(ls: seq<Line>, n: nat): Section {
    if exists h :: InForce(ls, h, n) then
      var h :| InForce(ls, h, n); ls[h].section
    else Top
  }

  lemma OneHeaderInForce(ls: seq<Line>, h: int, n: nat)
    requires InForce(ls, h, n)
    ensures Governing(ls, n) == ls[h].section
  {
    forall g | InForce(ls, g, n) ensures g == h {
      var later := ls[if g < h then h else g];
      assert later.Header?;
    }
  }

  /** How one line changes the section. */
  function Next(current: Section, line: Line): Section {
    match line
    case Skip => current
    case Header(section) => section
    case Content(stays, _) => if stays then current else Top
  }

  /** Keeping one current section line by line finds the governing section. */
  lemma {:induction false} GoverningStep(ls: seq<Line>, n: nat)
    requires n < |ls|
    ensures Governing(ls, n + 1) == Next(Governing(ls, n), ls[n])
  {
    var m := n + 1;
    if ls[n].Header? {
      assert InForce(ls, n, m);
      OneHeaderInForce(ls, n, m);
    } else if h :| InForce(ls, h, m) {
      assert h != n && InForce(ls, h, n);
      OneHeaderInForce(ls, h, m);
      OneHeaderInForce(ls, h, n);
    } else {
      forall h | InForce(ls, h, n) ensures ls[n].Content? && !ls[n].stays {
        assert !InForce(ls, h, m);
      }
    }
  }

  /** Which sections govern after `n` lines, both ways. */
  lemma GovernsExactlyWhen(ls: seq<Line>, n: nat, section: Section)
    ensures Governing(ls, n) == section <==> (
      || (exists h :: InForce(ls, h, n) && ls[h].section == section)
      || (section == Top && !exists h :: InForce(ls, h, n)))
  {
    forall h | InForce(ls, h, n) ensures Governing(ls, n) == ls[h].section {
      OneHeaderInForce(ls, h, n);
    }
  }

  /** The key/value lines among the first `n` that one of `sections` governs, in order. */
  ghost function PairsUnder(ls: seq<Line>, n: nat, sections: set<Section>): seq<KeyValue>
    requires n <= |ls|
  {
    if n == 0 then []
    else
      var before := PairsUnder(ls, n - 1, sections);
      match ls[n - 1]
      case Content(_, Pair(key, value)) =>
        if Governing(ls, n) in sections then before + [KeyValue(key, value)] else before
      case _ => before
  }

  /** The colon-free lines among the first `n` that one of `sections` governs, in order. */
  ghost function BareUnder(ls: seq<Line>, n: nat, sections: set<Section>): seq<string>
    requires n <= |ls|
  {
    if n == 0 then []
    else
      var before := BareUnder(ls, n - 1, sections);
      match ls[n - 1]
      case Content(_, Bare(text)) => if Governing(ls, n) in sections then before + [text] else before
      case _ => before
  }

  /** A line that is no key/value line adds no pair. */
  lemma NoPairAdded(ls: seq<Line>, n: nat)
    requires n < |ls| && !(ls[n].Content? && ls[n].body.Pair?)
    ensures forall sections :: PairsUnder(ls, n + 1, sections) == PairsUnder(ls, n, sections)
  {
  }

  /** Every pair comes from a key/value line that one of the sections governs. */
  lemma {:induction false} PairsComeFromLines(ls: seq<Line>, n: nat, sections: set<Section>, kv: KeyValue)
    requires n <= |ls|
    ensures kv in PairsUnder(ls, n, sections) <==> exists i ::
      0 <= i < n && ls[i].Content? && ls[i].body == Pair(kv.key, kv.value) && Governing(ls, i + 1) in sections
  {
    if n > 0 {
      PairsComeFromLines(ls, n - 1, sections, kv);
    }
  }

  lemma {:induction false} BareComesFromLines(ls: seq<Line>, n: nat, sections: set<Section>, text: string)
    requires n <= |ls|
    ensures text in BareUnder(ls, n, sections)
      <==> exists i :: 0 <= i < n && ls[i].Content? && ls[i].body == Bare(text) && Governing(ls, i + 1) in sections
  {
    if n > 0 {
      BareComesFromLines(ls, n - 1, sections, text);
    }
  }

  /** Every pair that a section gets stands in some line that classifies as that pair. */
  lemma PairsStandInLines(lines: seq<string>, classify: string -> Line, sections: set<Section>, kv: KeyValue)
    requires kv in PairsUnder(Classified(lines, classify), |lines|, sections)
    ensures exists raw :: raw in lines && classify(raw).Content? && classify(raw).body == Pair(kv.key, kv.value)
  {
    var ls := Classified(lines, classify);
    PairsComeFromLines(ls, |lines|, sections, kv);
    var i :| 0 <= i < |ls| && ls[i].Content? && ls[i].body == Pair(kv.key, kv.value);
    assert lines[i] in lines;
  }

  /** A heading and, below it, nothing but key/value lines. */
  ghost predicate OneSection(ls: seq<Line>, section: Section, pairs: seq<KeyValue>) {
    && |ls| == |pairs| + 1 && ls[0] == Header(section)
    && forall i :: 0 <= i < |pairs| ==> ls[i + 1] == Content(true, Pair(pairs[i].key, pairs[i].value))
  }

  lemma {:induction false} HeadingGoverns(ls: seq<Line>, section: Section, pairs: seq<KeyValue>, n: nat)
    requires OneSection(ls, section, pairs) && 1 <= n <= |ls|
    ensures Governing(ls, n) == section
  {
    GoverningStep(ls, n - 1);
    if n > 1 {
      HeadingGoverns(ls, section, pairs, n - 1);
      assert ls[(n - 2) + 1] == Content(true, Pair(pairs[n - 2].key, pairs[n - 2].value));
    }
  }

  /** Each of its lines goes to every part that reads the section. */
  lemma {:induction false} SectionPairs(ls: seq<Line>, section: Section, pairs: seq<KeyValue>, n: nat,
      sections: set<Section>)
    requires OneSection(ls, section, pairs) && 1 <= n <= |ls|
    ensures PairsUnder(ls, n, sections) == if section in sections then pairs[..n - 1] else []
  {
    if n == 1 {
      assert PairsUnder(ls, 0, sections) == [];
    } else {
      SectionPairs(ls, section, pairs, n - 1, sections);
      HeadingGoverns(ls, section, pairs, n);
      assert ls[n - 1] == ls[(n - 2) + 1];
      assert pairs[..n - 1] == pairs[..n - 2] + [pairs[n - 2]];
    }
  }
}

/** What the line parsers fill in. */
module WhoisRecord {
  import opened CacheTypes
  import opened Sections
  import opened Text

  datatype Entity = Entity(name: string, organization: string, address: string, city: string, postalCode: string,
    country: string, email: string, phone: string, fax: string)

  const NO_ENTITY := Entity("", "", "", "", "", "", "", "", "")

  /** The top-level fields; a date is whatever number the date parser makes of it. */
  datatype Main = Main(domainName: string, nameservers: seq<string>, status: seq<string>, createdDate: Option<int>,
    updatedDate: Option<int>, dnssecSigned: Option<bool>)

  const NO_MAIN := Main("", [], [], None, None, None)

  datatype Confidence = High | Low

  /** A record as a value: the top-level fields and the contacts that the response mentions. */
  datatype Record = Record(main: Main, registrant: Option<Entity>, adminContact: Option<Entity>,
    techContact: Option<Entity>, registrar: Option<Entity>)

  const NO_RECORD := Record(NO_MAIN, None, None, None, None)

  class ParsedDomain {
    var main: Main
    var registrant: Option<Entity>
    var adminContact: Option<Entity>
    var techContact: Option<Entity>
    var registrar: Option<Entity>

    ghost function Value(): Record
      reads this
    {
      Record(main, registrant, adminContact, techContact, registrar)
    }

    constructor ()
      ensures Value() == NO_RECORD
    {
      main := NO_MAIN;
      registrant, adminContact, techContact, registrar := None, None, None, None;
    }
  }

  function OrNew(e: Option<Entity>): Entity {
    if e.Some? then e.value else NO_ENTITY
  }

  /** The text before and behind the first colon, both trimmed; nothing without a colon. */
  function Cut(line: string): (r: Option<KeyValue>)
    ensures r == None <==> ':' !in line
  {
    var i := Index(line, ':');
    if i == -1 then None else Some(KeyValue(TrimSpace(line[..i]), TrimSpace(line[i + 1..])))
  }

  datatype ContactField =
    | Name
    | Organization
    | Address
    | City
    | PostalCode
    | Country
    | Email
    | Phone
    | Fax
    | Website
    | Unread

  /** What a registry's keys and values mean. */
  datatype Keys<!F> = Keys(main: string -> F, contact: string -> ContactField, registrar: string -> ContactField,
    nameserver: string -> string, signed: string -> bool, date: string -> Option<int>)

  /** What a line does to the part of the record that it belongs to. */
  datatype Reading = Reading(main: (Main, KeyValue) -> Main, contact: (Entity, KeyValue) -> Entity,
    registrar: (Entity, KeyValue) -> Entity, nameserver: (Main, string) -> Main, signed: (Main, string) -> Main)

  /** Sets one field; address lines are joined, a website overwrites the address. */
  function SetContact(e: Entity, field: ContactField, value: string): Entity {
    match field
    case Name => e.(name := value)
    case Organization => e.(organization := value)
    case Address => e.(address := if e.address == "" then value else e.address + ", " + value)
    case City => e.(city := value)
    case PostalCode => e.(postalCode := value)
    case Country => e.(country := ToUpper(value))
    case Email => e.(email := value)
    case Phone => e.(phone := value)
    case Fax => e.(fax := value)
    case Website => e.(address := value)
    case Unread => e
  }

  function ContactUpdate(fieldOf: string -> ContactField): (Entity, KeyValue) -> Entity {
    (e: Entity, kv: KeyValue) => SetContact(e, fieldOf(kv.key), kv.value)
  }

  function SetNameserver(m: Main, ns: string): Main {
    if ns != "" then m.(nameservers := m.nameservers + [ns]) else m
  }

  /** The in-order fold of key/value lines. */
  function Fold<S>(pairs: seq<KeyValue>, start: S, update: (S, KeyValue) -> S): S {
    if pairs == [] then start
    else update(Fold(pairs[..|pairs| - 1], start, update), pairs[|pairs| - 1])
  }

  lemma {:induction false} FoldStep<S>(pairs: seq<KeyValue>, kv: KeyValue, start: S, update: (S, KeyValue) -> S)
    ensures Fold(pairs + [kv], start, update) == update(Fold(pairs, start, update), kv)
  {
    assert (pairs + [kv])[..|pairs|] == pairs;
  }

  /** The contact that key/value lines make; no lines leave no contact. */
  function Contact(pairs: seq<KeyValue>, update: (Entity, KeyValue) -> Entity): Option<Entity> {
    if pairs == [] then None else Some(Fold(pairs, NO_ENTITY, update))
  }

  /** What key/value line `n` does to a contact that some sections make. */
  lemma ContactStep(ls: seq<Line>, n: nat, sections: set<Section>, update: (Entity, KeyValue) -> Entity)
    requires n < |ls| && ls[n].Content? && ls[n].body.Pair?
    ensures var contact := Contact(PairsUnder(ls, n, sections), update);
      Contact(PairsUnder(ls, n + 1, sections), update) ==
        if Governing(ls, n + 1) in sections then
          Some(update(OrNew(contact), KeyValue(ls[n].body.key, ls[n].body.value)))
        else contact
  {
    FoldStep(PairsUnder(ls, n, sections), KeyValue(ls[n].body.key, ls[n].body.value), NO_ENTITY, update);
  }

  /** The values given for one field, in order. */
  function ValuesOf<F(==)>(pairs: seq<KeyValue>, fieldOf: string -> F, field: F): seq<string> {
    if pairs == [] then []
    else
      var before, last := ValuesOf(pairs[..|pairs| - 1], fieldOf, field), pairs[|pairs| - 1];
      if fieldOf(last.key) == field then before + [last.value] else before
  }

  function Last(values: seq<string>): string {
    if values == [] then "" else values[|values| - 1]
  }

  /** The last of the values that is a date. */
  function LastDate(values: seq<string>, parseDate: string -> Option<int>): Option<int> {
    if values == [] then None
    else if parseDate(Last(values)).Some? then parseDate(Last(values))
    else LastDate(values[..|values| - 1], parseDate)
  }

  /** The texts as nameservers, without those that leave nothing. */
  function Nameservers(texts: seq<string>, normalize: string -> string): seq<string> {
    if texts == [] then []
    else
      var before, ns := Nameservers(texts[..|texts| - 1], normalize), normalize(Last(texts));
      if ns != "" then before + [ns] else before
  }

  lemma {:induction false} ValuesStep<F>(pairs: seq<KeyValue>, kv: KeyValue, fieldOf: string -> F, field: F)
    ensures ValuesOf(pairs + [kv], fieldOf, field) ==
      if fieldOf(kv.key) == field then ValuesOf(pairs, fieldOf, field) + [kv.value] else ValuesOf(pairs, fieldOf, field)
  {
    assert (pairs + [kv])[..|pairs|] == pairs;
  }

  lemma {:induction false} DateStep(values: seq<string>, value: string, parseDate: string -> Option<int>)
    ensures LastDate(values + [value], parseDate) ==
      if parseDate(value).Some? then parseDate(value) else LastDate(values, parseDate)
  {
    assert (values + [value])[..|values|] == values;
  }

  lemma {:induction false} NameserverStep(texts: seq<string>, text: string, normalize: string -> string)
    ensures Nameservers(texts + [text], normalize) ==
      if normalize(text) != "" then Nameservers(texts, normalize) + [normalize(text)] else Nameservers(texts, normalize)
  {
    assert (texts + [text])[..|texts|] == texts;
  }

  /** Every nameserver comes from one of the texts, and every text that leaves something gives one. */
  lemma {:induction false} NameserverComesFromText(texts: seq<string>, normalize: string -> string, ns: string)
    ensures ns in Nameservers(texts, normalize) <==> ns != "" && exists t :: t in texts && normalize(t) == ns
  {
    if texts != [] {
      NameserverComesFromText(texts[..|texts| - 1], normalize, ns);
      assert forall t :: t in texts <==> t in texts[..|texts| - 1] || t == Last(texts);
    }
  }

  /** The values in order, with a comma between each two. */
  function Join(values: seq<string>): string {
    if values == [] then ""
    else if |values| == 1 then values[0]
    else Join(values[..|values| - 1]) + ", " + Last(values)
  }

  /** No value of the pairs is empty; both parsers skip such lines. */
  ghost predicate Filled(pairs: seq<KeyValue>) {
    forall i :: 0 <= i < |pairs| ==> pairs[i].value != ""
  }

  lemma {:induction false} JoinStep(values: seq<string>, value: string)
    requires (Join(values) == "") == (values == []) && value != ""
    ensures Join(values + [value]) == if values == [] then value else Join(values) + ", " + value
    ensures Join(values + [value]) != ""
  {
    assert (values + [value])[..|values|] == values;
  }

  function Stored(e: Entity, field: ContactField): string {
    match field
    case Name => e.name
    case Organization => e.organization
    case Address => e.address
    case City => e.city
    case PostalCode => e.postalCode
    case Country => e.country
    case Email => e.email
    case Phone => e.phone
    case Fax => e.fax
    case Website => e.address
    case Unread => ""
  }

  lemma SetContactStores(e: Entity, field: ContactField, value: string, other: ContactField)
    requires other != Address && other != Website && other != Unread
    ensures Stored(SetContact(e, field, value), other) ==
      if field != other then Stored(e, other) else if field == Country then ToUpper(value) else value
  {
  }

  lemma ContactIsFold(pairs: seq<KeyValue>, update: (Entity, KeyValue) -> Entity)
    ensures Contact(pairs, update).Some? <==> pairs != []
    ensures OrNew(Contact(pairs, update)) == Fold(pairs, NO_ENTITY, update)
  {
  }

  lemma {:induction false} FoldHolds(pairs: seq<KeyValue>, fieldOf: string -> ContactField, field: ContactField)
    requires field != Address && field != Website && field != Unread
    ensures var last := Last(ValuesOf(pairs, fieldOf, field));
      Stored(Fold(pairs, NO_ENTITY, ContactUpdate(fieldOf)), field) == if field == Country then ToUpper(last) else last
  {
    if pairs != [] {
      var init, last := pairs[..|pairs| - 1], pairs[|pairs| - 1];
      FoldHolds(init, fieldOf, field);
      SetContactStores(Fold(init, NO_ENTITY, ContactUpdate(fieldOf)), fieldOf(last.key), last.value, field);
    }
  }

  /**
   What a contact holds: for each field the last value given for it, the country in upper case.
   There is a contact exactly when its section has a line.
   */
  lemma ContactHolds(pairs: seq<KeyValue>, fieldOf: string -> ContactField, field: ContactField)
    requires field != Address && field != Website && field != Unread
    ensures Contact(pairs, ContactUpdate(fieldOf)).Some? <==> pairs != []
    ensures var last := Last(ValuesOf(pairs, fieldOf, field));
      Stored(OrNew(Contact(pairs, ContactUpdate(fieldOf))), field) == if field == Country then ToUpper(last) else last
  {
    ContactIsFold(pairs, ContactUpdate(fieldOf));
    FoldHolds(pairs, fieldOf, field);
  }

  lemma {:induction false} FoldAddress(pairs: seq<KeyValue>, fieldOf: string -> ContactField)
    requires Filled(pairs) && ValuesOf(pairs, fieldOf, Website) == []
    ensures Fold(pairs, NO_ENTITY, ContactUpdate(fieldOf)).address == Join(ValuesOf(pairs, fieldOf, Address))
    ensures Join(ValuesOf(pairs, fieldOf, Address)) == "" <==> ValuesOf(pairs, fieldOf, Address) == []
  {
    if pairs != [] {
      var init, last := pairs[..|pairs| - 1], pairs[|pairs| - 1];
      FoldAddress(init, fieldOf);
      JoinStep(ValuesOf(init, fieldOf, Address), last.value);
    }
  }

  /** Where no key means a website, the address is all the address lines, joined in order. */
  lemma AddressHolds(pairs: seq<KeyValue>, fieldOf: string -> ContactField)
    requires Filled(pairs) && ValuesOf(pairs, fieldOf, Website) == []
    ensures OrNew(Contact(pairs, ContactUpdate(fieldOf))).address == Join(ValuesOf(pairs, fieldOf, Address))
  {
    ContactIsFold(pairs, ContactUpdate(fieldOf));
    FoldAddress(pairs, fieldOf);
  }

  /** A key and a value as a response writes them; the key is no comment, heading or sentence with a colon. */
  predicate Writable(kv: KeyValue) {
    Tight(kv.key) && Tight(kv.value) && ':' !in kv.key && kv.key[0] !in {'%', '['}
  }

  function Written(kv: KeyValue): string {
    kv.key + ": " + kv.value
  }

  lemma WrittenIsCut(kv: KeyValue)
    requires Writable(kv)
    ensures TrimSpace(Written(kv)) == Written(kv) && Cut(Written(kv)) == Some(kv)
  {
    var line := Written(kv);
    assert line[0] == kv.key[0] && line[|line| - 1] == kv.value[|kv.value| - 1];
    TrimsTo(line, 0, line);
    assert forall j :: 0 <= j < |kv.key| ==> line[j] == kv.key[j];
    assert line[|kv.key|] == ':' && Index(line, ':') == |kv.key|;
    assert line[..|kv.key|] == kv.key && line[|kv.key| + 1..] == " " + kv.value;
    TrimsTo(kv.key, 0, kv.key);
    TrimsTo(" " + kv.value, 1, kv.value);
  }
}

/** The section parser for DENIC responses. */
module DEParser {
  import opened CacheTypes
  import opened Sections
  import opened Text
  import opened WhoisRecord

  function TrimBrackets(s: string): string {
    if s == "" then s
    else if s[0] == '[' || s[0] == ']' then TrimBrackets(s[1..])
    else if s[|s| - 1] == '[' || s[|s| - 1] == ']' then TrimBrackets(s[..|s| - 1])
    else s
  }

  function SectionNamed(name: string): Section {
    match name
    case "" => Top
    case "holder" => Holder
    case "admin-c" => AdminC
    case "tech-c" => TechC
    case "zone-c" => ZoneC
    case _ => Other
  }

  /** What one line is. Only a bracket header ever ends a section. */
  function Classify(raw: string): Line {
    var line := TrimSpace(raw);
    if line == "" || HasPrefix(line, "%") then Skip
    else if HasPrefix(line, "[") && HasSuffix(line, "]") then Header(SectionNamed(ToLower(TrimBrackets(line))))
    else
      match Cut(line)
      case None => Content(true, Nothing)
      case Some(kv) => Content(true, if kv.value == "" then Nothing else Pair(kv.key, kv.value))
  }

  lemma OnlyHeadersEndSections(raw: string)
    ensures Classify(raw).Content? ==> Classify(raw).stays
  {
  }

  function NormalizeNameserver(value: string): string {
    var ns := ToLower(TrimSpace(value));
    var i := Index(ns, ' ');
    TrimSuffix(if i > 0 then ns[..i] else ns, ".")
  }

  function ContactFieldOf(key: string): ContactField {
    match ToLower(key)
    case "name" => Name
    case "organisation" => Organization
    case "organization" => Organization
    case "address" => Address
    case "city" => City
    case "postalcode" => PostalCode
    case "countrycode" => Country
    case "country" => Country
    case "email" => Email
    case "phone" => Phone
    case "fax" => Fax
    case _ => ContactField.Unread
  }

  predicate MeansSigned(value: string) {
    value != "N" && value != "unsigned"
  }

  datatype MainField = DomainKey | NameServer | Status | Changed | Created | DnsKey | DnsSec | Unread

  function MainFieldOf(key: string): MainField {
    match ToLower(key)
    case "domain" => DomainKey
    case "nserver" => NameServer
    case "status" => Status
    case "changed" => Changed
    case "regcreateddate" => Created
    case "dnskey" => DnsKey
    case "dnssec" => DnsSec
    case _ => MainField.Unread
  }

  function SetMain(m: Main, field: MainField, value: string, keys: Keys<MainField>): Main {
    match field
    case DomainKey => m.(domainName := ToLower(value))
    case NameServer => SetNameserver(m, keys.nameserver(value))
    case Status => m.(status := m.status + [value])
    case Changed => if keys.date(value).Some? then m.(updatedDate := keys.date(value)) else m
    case Created => if keys.date(value).Some? then m.(createdDate := keys.date(value)) else m
    case DnsKey => m.(dnssecSigned := Some(true))
    case DnsSec => m.(dnssecSigned := Some(keys.signed(value)))
    case Unread => m
  }

  function MainUpdate(keys: Keys<MainField>): (Main, KeyValue) -> Main {
    (m: Main, kv: KeyValue) => SetMain(m, keys.main(kv.key), kv.value, keys)
  }

  function ReadBy(keys: Keys<MainField>): Reading {
    Reading(MainUpdate(keys), ContactUpdate(keys.contact), ContactUpdate(keys.registrar),
      (m: Main, text: string) => m, (m: Main, text: string) => m)
  }

  function DenicKeys(parseDate: string -> Option<int>): Keys<MainField> {
    Keys(MainFieldOf, ContactFieldOf, ContactFieldOf, NormalizeNameserver, MeansSigned, parseDate)
  }

  /** What the top-level fields hold, each in terms of the lines with its key. */
  lemma {:induction false} MainHolds(pairs: seq<KeyValue>, keys: Keys<MainField>)
    ensures var m := Fold(pairs, NO_MAIN, MainUpdate(keys));
      && m.domainName == ToLower(Last(ValuesOf(pairs, keys.main, DomainKey)))
      && m.nameservers == Nameservers(ValuesOf(pairs, keys.main, NameServer), keys.nameserver)
      && m.status == ValuesOf(pairs, keys.main, Status)
      && m.updatedDate == LastDate(ValuesOf(pairs, keys.main, Changed), keys.date)
      && m.createdDate == LastDate(ValuesOf(pairs, keys.main, Created), keys.date)
      && (m.dnssecSigned == None <==>
          ValuesOf(pairs, keys.main, DnsKey) == [] && ValuesOf(pairs, keys.main, DnsSec) == [])
  {
    if pairs != [] {
      var init, last := pairs[..|pairs| - 1], pairs[|pairs| - 1];
      MainHolds(init, keys);
      match keys.main(last.key)
      case NameServer => NameserverStep(ValuesOf(init, keys.main, NameServer), last.value, keys.nameserver);
      case Changed => DateStep(ValuesOf(init, keys.main, Changed), last.value, keys.date);
      case Created => DateStep(ValuesOf(init, keys.main, Created), last.value, keys.date);
      case _ =>
    }
  }

  /** The line sets the DNSSEC flag. */
  predicate SetsFlag(keys: Keys<MainField>, kv: KeyValue) {
    keys.main(kv.key) == DnsKey || keys.main(kv.key) == DnsSec
  }

  function FlagOf(keys: Keys<MainField>, kv: KeyValue): bool {
    keys.main(kv.key) == DnsKey || keys.signed(kv.value)
  }

  /** The DNSSEC flag is that of the last line that sets it, line `i`; there is none if no line does (`i == -1`). */
  lemma {:induction false} FlagHolds(pairs: seq<KeyValue>, keys: Keys<MainField>, i: int)
    requires -1 <= i < |pairs| && (i >= 0 ==> SetsFlag(keys, pairs[i]))
    requires forall j :: i < j < |pairs| ==> !SetsFlag(keys, pairs[j])
    ensures Fold(pairs, NO_MAIN, MainUpdate(keys)).dnssecSigned ==
      if i == -1 then None else Some(FlagOf(keys, pairs[i]))
  {
    if pairs != [] {
      var n := |pairs| - 1;
      assert Fold(pairs, NO_MAIN, MainUpdate(keys)) ==
        SetMain(Fold(pairs[..n], NO_MAIN, MainUpdate(keys)), keys.main(pairs[n].key), pairs[n].value, keys);
      if i < n {
        assert !SetsFlag(keys, pairs[n]);
        FlagHolds(pairs[..n], keys, i);
      }
    }
  }

  predicate SaysFree(response: string) {
    var lower := ToLower(response);
    Contains(response, "Status: free") || Contains(lower, "object not found") || Contains(lower, "no entries found")
  }

  /** What the first `n` lines make of the record: each part is the fold of exactly its sections' lines. */
  ghost function RecordOf(ls: seq<Line>, n: nat, how: Reading): Record
    requires n <= |ls|
  {
    Record(
      Fold(PairsUnder(ls, n, {Top}), NO_MAIN, how.main),
      Contact(PairsUnder(ls, n, {Holder}), how.contact),
      Contact(PairsUnder(ls, n, {AdminC}), how.contact),
      Contact(PairsUnder(ls, n, {TechC, ZoneC}), how.contact),
      None)
  }

  /** What a key/value line does in its section. */
  function SetField(r: Record, section: Section, kv: KeyValue, how: Reading): Record {
    match section
    case Top => r.(main := how.main(r.main, kv))
    case Holder => r.(registrant := Some(how.contact(OrNew(r.registrant), kv)))
    case AdminC => r.(adminContact := Some(how.contact(OrNew(r.adminContact), kv)))
    case TechC => r.(techContact := Some(how.contact(OrNew(r.techContact), kv)))
    case ZoneC => r.(techContact := Some(how.contact(OrNew(r.techContact), kv)))
    case _ => r
  }

  method HandleField(pd: ParsedDomain, currentSection: Section, kv: KeyValue, how: Reading)
    modifies pd
    ensures pd.Value() == SetField(old(pd.Value()), currentSection, kv, how)
  {
    match currentSection {
      case Top => pd.main := how.main(pd.main, kv);
      case Holder => pd.registrant := Some(how.contact(OrNew(pd.registrant), kv));
      case AdminC => pd.adminContact := Some(how.contact(OrNew(pd.adminContact), kv));
      case TechC => pd.techContact := Some(how.contact(OrNew(pd.techContact), kv));
      case ZoneC => pd.techContact := Some(how.contact(OrNew(pd.techContact), kv));
      case _ =>
    }
  }

  /** A key/value line extends the folds of the sections that hold its governing one, and no other. */
  lemma PairStep(ls: seq<Line>, n: nat, kv: KeyValue, how: Reading)
    requires n < |ls| && ls[n].Content? && ls[n].body == Pair(kv.key, kv.value)
    ensures RecordOf(ls, n + 1, how) == SetField(RecordOf(ls, n, how), Governing(ls, n + 1), kv, how)
  {
    FoldStep(PairsUnder(ls, n, {Top}), kv, NO_MAIN, how.main);
    ContactStep(ls, n, {Holder}, how.contact);
    ContactStep(ls, n, {AdminC}, how.contact);
    ContactStep(ls, n, {TechC, ZoneC}, how.contact);
  }

  lemma NoPairStep(ls: seq<Line>, n: nat, how: Reading)
    requires n < |ls| && !(ls[n].Content? && ls[n].body.Pair?)
    ensures RecordOf(ls, n + 1, how) == RecordOf(ls, n, how)
  {
    NoPairAdded(ls, n);
  }

  method ReadLines(pd: ParsedDomain, lines: seq<string>, classify: string -> Line, how: Reading)
    requires forall raw :: classify(raw).Content? ==> classify(raw).stays
    requires pd.Value() == NO_RECORD
    modifies pd
    ensures pd.Value() == RecordOf(Classified(lines, classify), |lines|, how)
  {
    var currentSection := Top;
    ghost var ls := Classified(lines, classify);
    for i := 0 to |lines|
      invariant currentSection == Governing(ls, i)
      invariant pd.Value() == RecordOf(ls, i, how)
    {
      GoverningStep(ls, i);
      match classify(lines[i])
      case Skip => NoPairStep(ls, i, how);
      case Header(section) =>
        NoPairStep(ls, i, how);
        currentSection := section;
      case Content(_, Pair(key, value)) =>
        PairStep(ls, i, KeyValue(key, value), how);
        HandleField(pd, currentSection, KeyValue(key, value), how);
      case Content(_, _) => NoPairStep(ls, i, how);
    }
  }

  /** What a whole response makes of the record; the domain asked for stands in for a missing name. */
  ghost function Parsed(response: string, domain: string, parseDate: string -> Option<int>): Record {
    if SaysFree(response) then NO_RECORD.(main := NO_MAIN.(domainName := ToLower(domain)))
    else
      var ls := Classified(Split(response, '\n'), Classify);
      var record := RecordOf(ls, |ls|, ReadBy(DenicKeys(parseDate)));
      if record.main.domainName != "" then record
      else record.(main := record.main.(domainName := ToLower(domain)))
  }

  /**
   Each part of the record is the in-order fold of exactly the key/value lines its section governs;
   the domain asked for stands in for a name the response does not give.
   */
  method Parse(response: string, domain: string, parseDate: string -> Option<int>)
    returns (pd: ParsedDomain, confidence: Confidence)
    ensures fresh(pd)
    ensures confidence == Low <==>
      || Contains(response, "Status: free")
      || Contains(ToLower(response), "object not found") || Contains(ToLower(response), "no entries found")
    ensures confidence == Low ==> pd.Value() == NO_RECORD.(main := NO_MAIN.(domainName := ToLower(domain)))
    ensures pd.Value() == Parsed(response, domain, parseDate)
  {
    pd := new ParsedDomain();
    if SaysFree(response) {
      pd.main := pd.main.(domainName := ToLower(domain));
      return pd, Low;
    }
    forall raw ensures Classify(raw).Content? ==> Classify(raw).stays {
      OnlyHeadersEndSections(raw);
    }
    ReadLines(pd, Split(response, '\n'), Classify, ReadBy(DenicKeys(parseDate)));
    if pd.main.domainName == "" {
      pd.main := pd.main.(domainName := ToLower(domain));
    }
    confidence := High;
  }

  /** No key/value line has an empty value. */
  lemma ValueIsFilled(raw: string)
    ensures var line := Classify(raw); line.Content? && line.body.Pair? ==> line.body.value != ""
  {
  }

  lemma PairsAreFilled(lines: seq<string>, sections: set<Section>)
    ensures Filled(PairsUnder(Classified(lines, Classify), |lines|, sections))
  {
    var pairs := PairsUnder(Classified(lines, Classify), |lines|, sections);
    forall i | 0 <= i < |pairs| ensures pairs[i].value != "" {
      PairsStandInLines(lines, Classify, sections, pairs[i]);
      var raw :| raw in lines && Classify(raw).Content? && Classify(raw).body == Pair(pairs[i].key, pairs[i].value);
      ValueIsFilled(raw);
    }
  }

  lemma {:induction false} NoWebsites(pairs: seq<KeyValue>)
    ensures ValuesOf(pairs, ContactFieldOf, Website) == []
  {
    if pairs != [] {
      NoWebsites(pairs[..|pairs| - 1]);
    }
  }

  /** The address of a contact is all the address lines of its sections, joined in order. */
  lemma ContactAddress(lines: seq<string>, sections: set<Section>)
    ensures var pairs := PairsUnder(Classified(lines, Classify), |lines|, sections);
      OrNew(Contact(pairs, ContactUpdate(ContactFieldOf))).address == Join(ValuesOf(pairs, ContactFieldOf, Address))
  {
    PairsAreFilled(lines, sections);
    NoWebsites(PairsUnder(Classified(lines, Classify), |lines|, sections));
    AddressHolds(PairsUnder(Classified(lines, Classify), |lines|, sections), ContactFieldOf);
  }

  // ---------------------------------------------- what headings and keys mean

  lemma BracketsGo(h: string)
    requires h != "" && h[0] !in {'[', ']'} && h[|h| - 1] !in {'[', ']'}
    ensures TrimBrackets("[" + h + "]") == h
  {
    var line, tail := "[" + h + "]", h + "]";
    assert line[1..] == tail && tail[0] == h[0] && tail[..|tail| - 1] == h;
    assert TrimBrackets(h) == h;
    assert TrimBrackets(tail) == h;
  }

  lemma ReadsAsHeader(line: string)
    requires |line| >= 2 && TrimSpace(line) == line && line[0] == '[' && line[|line| - 1] == ']'
    ensures Classify(line) == Header(SectionNamed(ToLower(TrimBrackets(line))))
  {
    hide TrimSpace, TrimBrackets, ToLower, SectionNamed, Cut;
    assert line[..1] == "[" && line[|line| - 1..] == "]";
  }

  lemma HeadingIsRead(h: string)
    requires h != "" && h[0] !in {'[', ']'} && h[|h| - 1] !in {'[', ']'}
    ensures Classify("[" + h + "]") == Header(SectionNamed(ToLower(h)))
  {
    hide TrimSpace, TrimBrackets, ToLower, SectionNamed, Classify;
    var line := "[" + h + "]";
    TrimsTo(line, 0, line);
    BracketsGo(h);
    ReadsAsHeader(line);
  }

  lemma ReadsAsPair(line: string, kv: KeyValue)
    requires line != "" && line[0] !in {'%', '['} && TrimSpace(line) == line && Cut(line) == Some(kv) && kv.value != ""
    ensures Classify(line) == Content(true, Pair(kv.key, kv.value))
  {
    hide TrimSpace, TrimBrackets, ToLower, SectionNamed, Cut;
  }

  lemma PairIsRead(kv: KeyValue)
    requires Writable(kv)
    ensures Classify(Written(kv)) == Content(true, Pair(kv.key, kv.value))
  {
    hide TrimSpace, Cut, Classify;
    WrittenIsCut(kv);
    ReadsAsPair(Written(kv), kv);
  }

  /** The response consists of one section, written out. */
  ghost predicate WritesSection(lines: seq<string>, h: string, pairs: seq<KeyValue>) {
    && h != "" && h[0] !in {'[', ']'} && h[|h| - 1] !in {'[', ']'}
    && |lines| == |pairs| + 1 && lines[0] == "[" + h + "]"
    && forall i :: 0 <= i < |pairs| ==> Writable(pairs[i]) && lines[i + 1] == Written(pairs[i])
  }

  lemma SectionIsRead(lines: seq<string>, h: string, pairs: seq<KeyValue>)
    requires WritesSection(lines, h, pairs)
    ensures OneSection(Classified(lines, Classify), SectionNamed(ToLower(h)), pairs)
  {
    HeadingIsRead(h);
    forall i | 0 <= i < |pairs| ensures Classify(lines[i + 1]) == Content(true, Pair(pairs[i].key, pairs[i].value)) {
      PairIsRead(pairs[i]);
    }
  }

  /**
   Which contact a section fills in, whatever its lines: the holder is the registrant, and the technical and
   the zone contact are the same. A section by any other name changes nothing.
   */
  lemma HeadingsName(lines: seq<string>, h: string, pairs: seq<KeyValue>, how: Reading)
    requires WritesSection(lines, h, pairs)
    ensures var r := RecordOf(Classified(lines, Classify), |lines|, how);
      var contact := Contact(pairs, how.contact);
      var name := ToLower(h);
      && (name == "holder" ==> r == NO_RECORD.(registrant := contact))
      && (name == "admin-c" ==> r == NO_RECORD.(adminContact := contact))
      && (name == "tech-c" || name == "zone-c" ==> r == NO_RECORD.(techContact := contact))
      && (name !in ["holder", "admin-c", "tech-c", "zone-c"] ==> r == NO_RECORD)
  {
    var ls, section := Classified(lines, Classify), SectionNamed(ToLower(h));
    SectionIsRead(lines, h, pairs);
    SectionPairs(ls, section, pairs, |ls|, {Top});
    SectionPairs(ls, section, pairs, |ls|, {Holder});
    SectionPairs(ls, section, pairs, |ls|, {AdminC});
    SectionPairs(ls, section, pairs, |ls|, {TechC, ZoneC});
    assert pairs[..|pairs|] == pairs;
    SectionByName(ToLower(h));
  }

  /** Which lines say nothing, and which are headings. */
  lemma LineKinds(raw: string)
    ensures var t := TrimSpace(raw); t == "" || t[0] == '%' ==> Classify(raw) == Skip
    ensures var t := TrimSpace(raw);
      Classify(raw).Header? <==> t != "" && t[0] == '[' && t[|t| - 1] == ']'
  {
    hide TrimSpace, Cut, SectionNamed, ToLower, TrimBrackets;
    var t := TrimSpace(raw);
    if t != "" {
      assert t[..1] == [t[0]] && t[|t| - 1..] == [t[|t| - 1]];
    }
  }

  lemma SectionByName(name: string)
    requires name != ""
    ensures SectionNamed(name) == Holder <==> name == "holder"
    ensures SectionNamed(name) == AdminC <==> name == "admin-c"
    ensures SectionNamed(name) == TechC <==> name == "tech-c"
    ensures SectionNamed(name) == ZoneC <==> name == "zone-c"
    ensures SectionNamed(name) != Top
  {
  }

  /** What a key means in a contact, in any letter case. */
  lemma ContactKeysMean(e: Entity, key: string, value: string)
    ensures var e', k := SetContact(e, ContactFieldOf(key), value), ToLower(key);
      && (k == "name" ==> e' == e.(name := value))
      && (k == "organisation" || k == "organization" ==> e' == e.(organization := value))
      && (k == "address" ==> e' == e.(address := if e.address == "" then value else e.address + ", " + value))
      && (k == "city" ==> e' == e.(city := value))
      && (k == "postalcode" ==> e' == e.(postalCode := value))
      && (k == "countrycode" || k == "country" ==> e' == e.(country := ToUpper(value)))
      && (k == "email" ==> e' == e.(email := value))
      && (k == "phone" ==> e' == e.(phone := value))
      && (k == "fax" ==> e' == e.(fax := value))
      && (e' != e ==> k in ["name", "organisation", "organization", "address", "city", "postalcode", "countrycode",
                            "country", "email", "phone", "fax"])
  {
  }

  lemma MainKeysNamed(key: string)
    ensures var field, k := MainFieldOf(key), ToLower(key);
      && (field == DomainKey <==> k == "domain") && (field == NameServer <==> k == "nserver")
      && (field == Status <==> k == "status") && (field == Changed <==> k == "changed")
      && (field == Created <==> k == "regcreateddate") && (field == DnsKey <==> k == "dnskey")
      && (field == DnsSec <==> k == "dnssec")
  {
  }

  /** A host is read in lower case, without the dot at its end and without the address behind it. */
  lemma NameserverRead(host: string, dot: string, address: string)
    requires Tight(host) && ' ' !in host && host[|host| - 1] != '.' && dot in ["", "."]
    requires address == "" || (Tight(address[1..]) && address[0] == ' ')
    ensures NormalizeNameserver(host + dot + address) == ToLower(host)
  {
    hide TrimSpace, TrimSuffix;
    var ns, whole := host + dot, host + dot + address;
    TrimsTo(whole, 0, whole);
    assert ToLower(whole)[..|ns|] == ToLower(ns);
    if address == "" {
      assert whole == ns && ' ' !in ToLower(ns);
    } else {
      assert ToLower(whole)[|ns|] == ' ';
      assert Index(ToLower(whole), ' ') == |ns|;
    }
    DotDropped(host, dot);
  }

  /** What a key means outside any section. */
  lemma MainKeysMean(m: Main, key: string, value: string, parseDate: string -> Option<int>)
    ensures var m', k := MainUpdate(DenicKeys(parseDate))(m, KeyValue(key, value)), ToLower(key);
      && (k == "domain" ==> m' == m.(domainName := ToLower(value)))
      && (k == "nserver" ==> m' == SetNameserver(m, NormalizeNameserver(value)))
      && (k == "status" ==> m' == m.(status := m.status + [value]))
      && (k == "changed" && parseDate(value).Some? ==> m' == m.(updatedDate := parseDate(value)))
      && (k == "regcreateddate" && parseDate(value).Some? ==> m' == m.(createdDate := parseDate(value)))
      && (k == "dnskey" ==> m' == m.(dnssecSigned := Some(true)))
      && (k == "dnssec" ==> m' == m.(dnssecSigned := Some(value != "N" && value != "unsigned")))
      && (m' != m ==> k in ["domain", "nserver", "status", "changed", "regcreateddate", "dnskey", "dnssec"])
  {
    MainKeysNamed(key);
    assert MainUpdate(DenicKeys(parseDate))(m, KeyValue(key, value)) ==
      SetMain(m, MainFieldOf(key), value, DenicKeys(parseDate));
  }
}

/** The section parser for EURid responses, where indentation keeps a line in its section. */
module EUParser {
  import opened CacheTypes
  import opened Sections
  import opened Text
  import opened WhoisRecord

  /** An unknown section reads like no section at all. */
  function SectionNamed(name: string): Section {
    match name
    case "registrant" => Registrant
    case "technical" => Technical
    case "tech" => Technical
    case "registrar" => Registrar
    case "name servers" => NameServers
    case "nameservers" => NameServers
    case "keys" => KeyRecords
    case "dnssec" => Dnssec
    case _ => Top
  }

  predicate IsHeader(trimmed: string) {
    HasSuffix(trimmed, ":") && ':' !in trimmed[..|trimmed| - 1]
  }

  /** What one line is; a content line that is not indented ends the section, whatever it holds. */
  function Classify(raw: string): Line {
    var line := TrimSpace(raw);
    if line == "" || HasPrefix(line, "%") then Skip
    else if IsHeader(line) then Header(SectionNamed(ToLower(TrimSuffix(line, ":"))))
    else
      Content(raw != "" && (raw[0] == '\t' || raw[0] == ' '),
        match Cut(line)
        case None => Bare(line)
        case Some(kv) =>
          if kv.value == "" || Contains(ToLower(kv.value), "not disclosed") then Nothing
          else Pair(kv.key, kv.value))
  }

  function NormalizeNameserver(value: string): string {
    var ns := TrimSuffix(ToLower(TrimSpace(value)), ".");
    if ' ' in ns || '=' in ns || '.' !in ns then "" else ns
  }

  function ContactFieldOf(key: string): ContactField {
    match ToLower(key)
    case "name" => Name
    case "organisation" => Organization
    case "organization" => Organization
    case "email" => Email
    case "phone" => Phone
    case "fax" => Fax
    case _ => ContactField.Unread
  }

  function RegistrarFieldOf(key: string): ContactField {
    match ToLower(key)
    case "name" => Name
    case "website" => Website
    case _ => ContactField.Unread
  }

  datatype MainField = DomainKey | Status | Registered | Unread

  function MainFieldOf(key: string): MainField {
    match ToLower(key)
    case "domain" => DomainKey
    case "status" => Status
    case "registered" => Registered
    case _ => MainField.Unread
  }

  predicate MeansSigned(value: string) {
    ToLower(value) in ["signeddelegation", "yes", "signed"]
  }

  function SetTop(m: Main, field: MainField, value: string, keys: Keys<MainField>): Main {
    match field
    case DomainKey => m.(domainName := ToLower(value))
    case Status => m.(status := m.status + [value])
    case Registered => if keys.date(value).Some? then m.(createdDate := keys.date(value)) else m
    case Unread => m
  }

  function TopUpdate(keys: Keys<MainField>): (Main, KeyValue) -> Main {
    (m: Main, kv: KeyValue) => SetTop(m, keys.main(kv.key), kv.value, keys)
  }

  function ReadBy(keys: Keys<MainField>): Reading {
    Reading(TopUpdate(keys), ContactUpdate(keys.contact), ContactUpdate(keys.registrar),
      (m: Main, text: string) => SetNameserver(m, keys.nameserver(text)),
      (m: Main, text: string) => m.(dnssecSigned := Some(keys.signed(text))))
  }

  function EuridKeys(parseDate: string -> Option<int>): Keys<MainField> {
    Keys(MainFieldOf, ContactFieldOf, RegistrarFieldOf, NormalizeNameserver, MeansSigned, parseDate)
  }

  predicate SaysAvailable(response: string) {
    var lower := ToLower(response);
    Contains(lower, "status: available") || Contains(lower, "not found") || Contains(lower, "no entries found")
  }

  /** What a content line does to the top-level fields, by the section that governs it. */
  function SetMain(m: Main, section: Section, body: Body, how: Reading): Main {
    match (section, body)
    case (Top, Pair(key, value)) => how.main(m, KeyValue(key, value))
    case (NameServers, Bare(text)) => how.nameserver(m, text)
    case (Dnssec, Bare(text)) => how.signed(m, text)
    case (Dnssec, Pair(_, value)) => how.signed(m, value)
    case _ => m
  }

  ghost function MainAfter(ls: seq<Line>, n: nat, how: Reading): Main
    requires n <= |ls|
  {
    if n == 0 then NO_MAIN
    else
      var before := MainAfter(ls, n - 1, how);
      if ls[n - 1].Content? then SetMain(before, Governing(ls, n), ls[n - 1].body, how) else before
  }

  /** What the first `n` lines make of the record: each contact is the fold of exactly its section's lines. */
  ghost function RecordOf(ls: seq<Line>, n: nat, how: Reading): Record
    requires n <= |ls|
  {
    Record(
      MainAfter(ls, n, how),
      Contact(PairsUnder(ls, n, {Registrant}), how.contact),
      None,
      Contact(PairsUnder(ls, n, {Technical}), how.contact),
      Contact(PairsUnder(ls, n, {Registrar}), how.registrar))
  }

  /** What a content line does in its section. */
  function SetField(r: Record, section: Section, body: Body, how: Reading): Record {
    match (section, body)
    case (Registrant, Pair(key, value)) =>
      r.(registrant := Some(how.contact(OrNew(r.registrant), KeyValue(key, value))))
    case (Technical, Pair(key, value)) =>
      r.(techContact := Some(how.contact(OrNew(r.techContact), KeyValue(key, value))))
    case (Registrar, Pair(key, value)) =>
      r.(registrar := Some(how.registrar(OrNew(r.registrar), KeyValue(key, value))))
    case _ => r.(main := SetMain(r.main, section, body, how))
  }

  method HandleContent(pd: ParsedDomain, currentSection: Section, body: Body, how: Reading)
    modifies pd
    ensures pd.Value() == SetField(old(pd.Value()), currentSection, body, how)
  {
    match body {
      case Nothing =>
      case Bare(text) =>
        match currentSection {
          case NameServers => pd.main := how.nameserver(pd.main, text);
          case Dnssec => pd.main := how.signed(pd.main, text);
          case _ =>
        }
      case Pair(key, value) =>
        var kv := KeyValue(key, value);
        match currentSection {
          case Top => pd.main := how.main(pd.main, kv);
          case Registrant => pd.registrant := Some(how.contact(OrNew(pd.registrant), kv));
          case Technical => pd.techContact := Some(how.contact(OrNew(pd.techContact), kv));
          case Registrar => pd.registrar := Some(how.registrar(OrNew(pd.registrar), kv));
          case Dnssec => pd.main := how.signed(pd.main, value);
          case _ =>
        }
    }
  }

  /** A content line extends the part that its governing section makes, and no other. */
  lemma ContentStep(ls: seq<Line>, n: nat, how: Reading)
    requires n < |ls| && ls[n].Content?
    ensures RecordOf(ls, n + 1, how) == SetField(RecordOf(ls, n, how), Governing(ls, n + 1), ls[n].body, how)
  {
    if ls[n].body.Pair? {
      ContactStep(ls, n, {Registrant}, how.contact);
      ContactStep(ls, n, {Technical}, how.contact);
      ContactStep(ls, n, {Registrar}, how.registrar);
    } else {
      NoPairAdded(ls, n);
    }
  }

  lemma OtherStep(ls: seq<Line>, n: nat, how: Reading)
    requires n < |ls| && !ls[n].Content?
    ensures RecordOf(ls, n + 1, how) == RecordOf(ls, n, how)
  {
    NoPairAdded(ls, n);
  }

  method ReadLines(pd: ParsedDomain, lines: seq<string>, classify: string -> Line, how: Reading)
    requires pd.Value() == NO_RECORD
    modifies pd
    ensures pd.Value() == RecordOf(Classified(lines, classify), |lines|, how)
  {
    var currentSection := Top;
    ghost var ls := Classified(lines, classify);
    for i := 0 to |lines|
      invariant currentSection == Governing(ls, i)
      invariant pd.Value() == RecordOf(ls, i, how)
    {
      GoverningStep(ls, i);
      match classify(lines[i])
      case Skip => OtherStep(ls, i, how);
      case Header(section) =>
        OtherStep(ls, i, how);
        currentSection := section;
      case Content(indented, body) =>
        if !indented {
          currentSection := Top;
        }
        ContentStep(ls, i, how);
        HandleContent(pd, currentSection, body, how);
    }
  }

  /** What a whole response makes of the record; the domain asked for stands in for a missing name. */
  ghost function Parsed(response: string, domain: string, parseDate: string -> Option<int>): Record {
    if SaysAvailable(response) then NO_RECORD.(main := NO_MAIN.(domainName := ToLower(domain)))
    else
      var ls := Classified(Split(response, '\n'), Classify);
      var record := RecordOf(ls, |ls|, ReadBy(EuridKeys(parseDate)));
      if record.main.domainName != "" then record
      else record.(main := record.main.(domainName := ToLower(domain)))
  }

  /**
   Each part of the record comes from exactly the lines that its section governs; the domain asked
   for stands in for a name the response does not give.
   */
  method Parse(response: string, domain: string, parseDate: string -> Option<int>)
    returns (pd: ParsedDomain, confidence: Confidence)
    ensures fresh(pd)
    ensures confidence == Low <==>
      || Contains(ToLower(response), "status: available")
      || Contains(ToLower(response), "not found") || Contains(ToLower(response), "no entries found")
    ensures confidence == Low ==> pd.Value() == NO_RECORD.(main := NO_MAIN.(domainName := ToLower(domain)))
    ensures pd.Value() == Parsed(response, domain, parseDate)
  {
    pd := new ParsedDomain();
    if SaysAvailable(response) {
      pd.main := pd.main.(domainName := ToLower(domain));
      return pd, Low;
    }
    ReadLines(pd, Split(response, '\n'), Classify, ReadBy(EuridKeys(parseDate)));
    if pd.main.domainName == "" {
      pd.main := pd.main.(domainName := ToLower(domain));
    }
    confidence := High;
  }

  /** What a key/value line does to the fields that only top-level lines set. */
  lemma SetMainFields(m: Main, section: Section, body: Body, keys: Keys<MainField>)
    ensures var m' := SetMain(m, section, body, ReadBy(keys));
      var field := if section == Top && body.Pair? then keys.main(body.key) else MainField.Unread;
      && m'.domainName == (if field == DomainKey then ToLower(body.value) else m.domainName)
      && m'.status == (if field == Status then m.status + [body.value] else m.status)
      && m'.createdDate ==
        (if field == Registered && keys.date(body.value).Some? then keys.date(body.value) else m.createdDate)
  {
    var m' := SetMain(m, section, body, ReadBy(keys));
    match (section, body)
    case (Top, Pair(key, value)) => assert m' == SetTop(m, keys.main(key), value, keys);
    case (NameServers, Bare(text)) => assert m' == SetNameserver(m, keys.nameserver(text));
    case (Dnssec, Bare(text)) => assert m' == m.(dnssecSigned := Some(keys.signed(text)));
    case (Dnssec, Pair(_, value)) => assert m' == m.(dnssecSigned := Some(keys.signed(value)));
    case _ => assert m' == m;
  }

  /** The values that the first `n` lines give at top level for a field. */
  ghost function TopValues(ls: seq<Line>, n: nat, keys: Keys<MainField>, field: MainField): seq<string>
    requires n <= |ls|
  {
    ValuesOf(PairsUnder(ls, n, {Top}), keys.main, field)
  }

  /** The top-level field that line `n` gives a value for. */
  ghost function TopField(ls: seq<Line>, n: nat, keys: Keys<MainField>): (field: MainField)
    requires n < |ls|
    ensures !field.Unread? ==> ls[n].Content? && ls[n].body.Pair?
  {
    if ls[n].Content? && ls[n].body.Pair? && Governing(ls, n + 1) == Top then keys.main(ls[n].body.key)
    else MainField.Unread
  }

  lemma TopValuesStep(ls: seq<Line>, n: nat, keys: Keys<MainField>, field: MainField)
    requires n < |ls| && !field.Unread?
    ensures TopValues(ls, n + 1, keys, field) ==
      if TopField(ls, n, keys) == field then TopValues(ls, n, keys, field) + [ls[n].body.value]
      else TopValues(ls, n, keys, field)
  {
    if ls[n].Content? && ls[n].body.Pair? {
      ValuesStep(PairsUnder(ls, n, {Top}), KeyValue(ls[n].body.key, ls[n].body.value), keys.main, field);
    }
  }

  /** What line `n` does to the fields that only top-level lines set. */
  lemma MainFieldsStep(ls: seq<Line>, n: nat, keys: Keys<MainField>)
    requires n < |ls|
    ensures var m, m' := MainAfter(ls, n, ReadBy(keys)), MainAfter(ls, n + 1, ReadBy(keys));
      var field := TopField(ls, n, keys);
      && m'.domainName == (if field == DomainKey then ToLower(ls[n].body.value) else m.domainName)
      && m'.status == (if field == Status then m.status + [ls[n].body.value] else m.status)
      && m'.createdDate ==
        (if field == Registered && keys.date(ls[n].body.value).Some? then keys.date(ls[n].body.value)
         else m.createdDate)
  {
    if ls[n].Content? {
      SetMainFields(MainAfter(ls, n, ReadBy(keys)), Governing(ls, n + 1), ls[n].body, keys);
    }
  }

  lemma DomainStep(ls: seq<Line>, n: nat, keys: Keys<MainField>)
    requires n < |ls|
    requires MainAfter(ls, n, ReadBy(keys)).domainName == ToLower(Last(TopValues(ls, n, keys, DomainKey)))
    ensures MainAfter(ls, n + 1, ReadBy(keys)).domainName == ToLower(Last(TopValues(ls, n + 1, keys, DomainKey)))
  {
    hide MainAfter, TopValues, TopField, ToLower, Governing;
    TopValuesStep(ls, n, keys, DomainKey);
    MainFieldsStep(ls, n, keys);
  }

  lemma {:induction false} DomainHolds(ls: seq<Line>, n: nat, keys: Keys<MainField>)
    requires n <= |ls|
    ensures MainAfter(ls, n, ReadBy(keys)).domainName == ToLower(Last(TopValues(ls, n, keys, DomainKey)))
  {
    if n > 0 {
      DomainHolds(ls, n - 1, keys);
      DomainStep(ls, n - 1, keys);
    }
  }

  lemma StatusStep(ls: seq<Line>, n: nat, keys: Keys<MainField>)
    requires n < |ls|
    requires MainAfter(ls, n, ReadBy(keys)).status == TopValues(ls, n, keys, Status)
    ensures MainAfter(ls, n + 1, ReadBy(keys)).status == TopValues(ls, n + 1, keys, Status)
  {
    hide *;
    TopValuesStep(ls, n, keys, Status);
    MainFieldsStep(ls, n, keys);
  }

  lemma {:induction false} StatusHolds(ls: seq<Line>, n: nat, keys: Keys<MainField>)
    requires n <= |ls|
    ensures MainAfter(ls, n, ReadBy(keys)).status == TopValues(ls, n, keys, Status)
  {
    if n > 0 {
      StatusHolds(ls, n - 1, keys);
      StatusStep(ls, n - 1, keys);
    }
  }

  lemma CreatedStep(ls: seq<Line>, n: nat, keys: Keys<MainField>)
    requires n < |ls|
    requires MainAfter(ls, n, ReadBy(keys)).createdDate == LastDate(TopValues(ls, n, keys, Registered), keys.date)
    ensures MainAfter(ls, n + 1, ReadBy(keys)).createdDate ==
      LastDate(TopValues(ls, n + 1, keys, Registered), keys.date)
  {
    hide *;
    TopValuesStep(ls, n, keys, Registered);
    MainFieldsStep(ls, n, keys);
    if TopField(ls, n, keys) == Registered {
      DateStep(TopValues(ls, n, keys, Registered), ls[n].body.value, keys.date);
    }
  }

  lemma {:induction false} CreatedHolds(ls: seq<Line>, n: nat, keys: Keys<MainField>)
    requires n <= |ls|
    ensures MainAfter(ls, n, ReadBy(keys)).createdDate == LastDate(TopValues(ls, n, keys, Registered), keys.date)
  {
    if n > 0 {
      CreatedHolds(ls, n - 1, keys);
      CreatedStep(ls, n - 1, keys);
    }
  }

  /** What the name, status and date fields hold, each in terms of the top-level lines with its key. */
  lemma MainHolds(ls: seq<Line>, n: nat, keys: Keys<MainField>)
    requires n <= |ls|
    ensures var m := MainAfter(ls, n, ReadBy(keys));
      && m.domainName == ToLower(Last(TopValues(ls, n, keys, DomainKey)))
      && m.status == TopValues(ls, n, keys, Status)
      && m.createdDate == LastDate(TopValues(ls, n, keys, Registered), keys.date)
  {
    DomainHolds(ls, n, keys);
    StatusHolds(ls, n, keys);
    CreatedHolds(ls, n, keys);
  }

  /** Line `j` sets the DNSSEC flag. */
  ghost predicate SetsFlag(ls: seq<Line>, j: nat)
    requires j < |ls|
  {
    ls[j].Content? && !ls[j].body.Nothing? && Governing(ls, j + 1) == Dnssec
  }

  function FlagOf(keys: Keys<MainField>, body: Body): bool {
    match body
    case Pair(_, value) => keys.signed(value)
    case Bare(text) => keys.signed(text)
    case Nothing => false
  }

  lemma FlagStep(m: Main, section: Section, body: Body, keys: Keys<MainField>)
    ensures SetMain(m, section, body, ReadBy(keys)).dnssecSigned ==
      if section == Dnssec && !body.Nothing? then Some(FlagOf(keys, body)) else m.dnssecSigned
  {
    var m' := SetMain(m, section, body, ReadBy(keys));
    match (section, body)
    case (Top, Pair(key, value)) => assert m' == SetTop(m, keys.main(key), value, keys);
    case (NameServers, Bare(text)) => assert m' == SetNameserver(m, keys.nameserver(text));
    case (Dnssec, Bare(text)) => assert m' == m.(dnssecSigned := Some(keys.signed(text)));
    case (Dnssec, Pair(_, value)) => assert m' == m.(dnssecSigned := Some(keys.signed(value)));
    case _ => assert m' == m;
  }

  /** The DNSSEC flag is that of the last line that sets it, line `i`; there is none if no line does (`i == -1`). */
  lemma {:induction false} FlagHolds(ls: seq<Line>, n: nat, keys: Keys<MainField>, i: int)
    requires -1 <= i < n <= |ls| || (i == -1 && n == 0)
    requires i >= 0 ==> SetsFlag(ls, i)
    requires forall j: nat :: i < j < n ==> !SetsFlag(ls, j)
    ensures MainAfter(ls, n, ReadBy(keys)).dnssecSigned == if i == -1 then None else Some(FlagOf(keys, ls[i].body))
  {
    if n > 0 {
      if ls[n - 1].Content? {
        FlagStep(MainAfter(ls, n - 1, ReadBy(keys)), Governing(ls, n), ls[n - 1].body, keys);
      }
      if i < n - 1 {
        assert !SetsFlag(ls, n - 1);
        FlagHolds(ls, n - 1, keys, i);
      }
    }
  }

  /** What a content line does to the nameservers. */
  lemma SetMainNameservers(m: Main, section: Section, body: Body, keys: Keys<MainField>)
    ensures var m' := SetMain(m, section, body, ReadBy(keys));
      m'.nameservers ==
        if section == NameServers && body.Bare? && keys.nameserver(body.text) != "" then
          m.nameservers + [keys.nameserver(body.text)]
        else m.nameservers
  {
    var m' := SetMain(m, section, body, ReadBy(keys));
    match (section, body)
    case (Top, Pair(key, value)) => assert m' == SetTop(m, keys.main(key), value, keys);
    case (NameServers, Bare(text)) => assert m' == SetNameserver(m, keys.nameserver(text));
    case (Dnssec, Bare(text)) => assert m' == m.(dnssecSigned := Some(keys.signed(text)));
    case (Dnssec, Pair(_, value)) => assert m' == m.(dnssecSigned := Some(keys.signed(value)));
    case _ => assert m' == m;
  }

  lemma NameserversStep(ls: seq<Line>, n: nat, keys: Keys<MainField>)
    requires n < |ls|
    ensures var texts, texts' := BareUnder(ls, n, {NameServers}), BareUnder(ls, n + 1, {NameServers});
      var m, m' := MainAfter(ls, n, ReadBy(keys)), MainAfter(ls, n + 1, ReadBy(keys));
      m.nameservers == Nameservers(texts, keys.nameserver) ==> m'.nameservers == Nameservers(texts', keys.nameserver)
  {
    hide SetMain, Governing, Nameservers, ReadBy;
    if ls[n].Content? {
      SetMainNameservers(MainAfter(ls, n, ReadBy(keys)), Governing(ls, n + 1), ls[n].body, keys);
      if ls[n].body.Bare? {
        NameserverStep(BareUnder(ls, n, {NameServers}), ls[n].body.text, keys.nameserver);
      }
    }
  }

  /** The nameservers are exactly the colon-free lines of nameserver sections, normalised, in order. */
  lemma {:induction false} NameserversHold(ls: seq<Line>, n: nat, keys: Keys<MainField>)
    requires n <= |ls|
    ensures MainAfter(ls, n, ReadBy(keys)).nameservers == Nameservers(BareUnder(ls, n, {NameServers}), keys.nameserver)
  {
    if n > 0 {
      NameserversHold(ls, n - 1, keys);
      NameserversStep(ls, n - 1, keys);
    }
  }

  /** Every nameserver comes from a colon-free line that a nameserver section governs, and each such line counts. */
  lemma NameserverComesFromLine(ls: seq<Line>, n: nat, keys: Keys<MainField>, ns: string)
    requires n <= |ls|
    ensures ns in MainAfter(ls, n, ReadBy(keys)).nameservers <==>
      ns != "" && exists text :: UnderNameServers(ls, n, text) && keys.nameserver(text) == ns
  {
    var texts := BareUnder(ls, n, {NameServers});
    NameserversHold(ls, n, keys);
    NameserverComesFromText(texts, keys.nameserver, ns);
    forall text ensures text in texts <==> UnderNameServers(ls, n, text) {
      BareComesFromLines(ls, n, {NameServers}, text);
    }
  }

  ghost predicate UnderNameServers(ls: seq<Line>, n: nat, text: string)
    requires n <= |ls|
  {
    exists i :: 0 <= i < n && ls[i].Content? && ls[i].body == Bare(text) && Governing(ls, i + 1) == NameServers
  }

  lemma ValueIsDisclosed(raw: string)
    ensures var line := Classify(raw); line.Content? && line.body.Pair? ==>
      line.body.value != "" && !Contains(ToLower(line.body.value), "not disclosed")
  {
  }

  /** No key/value line with an undisclosed value is handed to a section. */
  lemma NothingUndisclosed(lines: seq<string>, sections: set<Section>, kv: KeyValue)
    ensures kv in PairsUnder(Classified(lines, Classify), |lines|, sections) ==>
      kv.value != "" && !Contains(ToLower(kv.value), "not disclosed")
  {
    if kv in PairsUnder(Classified(lines, Classify), |lines|, sections) {
      PairsStandInLines(lines, Classify, sections, kv);
      var raw :| raw in lines && Classify(raw).Content? && Classify(raw).body == Pair(kv.key, kv.value);
      ValueIsDisclosed(raw);
    }
  }

  /** A content line whose value, or whose whole text without a colon, says that it is not disclosed. */
  predicate Undisclosed(raw: string) {
    Classify(raw).Content? &&
    match Cut(TrimSpace(raw))
    case None => Contains(ToLower(TrimSpace(raw)), "not disclosed")
    case Some(kv) => Contains(ToLower(kv.value), "not disclosed")
  }

  /** The phrase has a space inside, which trimming keeps. */
  lemma PhraseKeepsSpace(text: string) returns (i: nat)
    requires Contains(ToLower(text), "not disclosed")
    ensures i + 4 < |text| && text[i + 3] == ' ' && !IsSpace(text[i]) && !IsSpace(text[i + 4])
  {
    i :| 0 <= i <= |text| && OccursAt(ToLower(text), "not disclosed", i);
    var lower, phrase := ToLower(text), "not disclosed";
    assert |phrase| == 13 && phrase[0] == 'n' && phrase[3] == ' ' && phrase[4] == 'd';
    assert lower[i..i + 13] == phrase;
    assert lower[i] == phrase[0] && lower[i + 3] == phrase[3] && lower[i + 4] == phrase[4];
  }

  lemma PhraseIsNoNameserver(text: string)
    requires Contains(ToLower(text), "not disclosed")
    ensures NormalizeNameserver(text) == ""
  {
    var i := PhraseKeepsSpace(text);
    var from := SpaceEnd(text, 0);
    var rest := text[from..];
    assert from <= i;
    assert rest[i + 4 - from] == text[i + 4];
    var to := SpaceStart(rest, |rest|);
    assert i + 4 - from < to;
    var lower := ToLower(TrimSpace(text));
    assert TrimSpace(text) == rest[..to];
    assert lower[i + 3 - from] == LowerChar(rest[..to][i + 3 - from]) == ' ';
    assert TrimSuffix(lower, ".")[i + 3 - from] == ' ';
  }

  lemma PhraseIsNoSigning(text: string)
    requires Contains(ToLower(text), "not disclosed")
    ensures !MeansSigned(text)
  {
    var i := PhraseKeepsSpace(text);
    assert ToLower(text)[i + 3] == ' ';
    assert ' ' !in "signeddelegation" && ' ' !in "yes" && ' ' !in "signed";
  }

  /**
   What an undisclosed line does to the record, exactly. It changes nothing, except that a colon-free
   one in a DNSSEC section is read as the answer that the domain is not signed.
   */
  lemma UndisclosedChangesExactlyWhen(lines: seq<string>, n: nat, parseDate: string -> Option<int>)
    requires n < |lines| && Undisclosed(lines[n])
    ensures var ls, how := Classified(lines, Classify), ReadBy(EuridKeys(parseDate));
      var before, after := RecordOf(ls, n, how), RecordOf(ls, n + 1, how);
      var misread := ':' !in TrimSpace(lines[n]) && Governing(ls, n + 1) == Dnssec;
      && after == (if misread then before.(main := before.main.(dnssecSigned := Some(false))) else before)
      && (after != before <==> misread && before.main.dnssecSigned != Some(false))
  {
    var ls, how := Classified(lines, Classify), ReadBy(EuridKeys(parseDate));
    UndisclosedBody(lines[n]);
    if ls[n].body.Bare? {
      PhraseIsNoNameserver(ls[n].body.text);
      PhraseIsNoSigning(ls[n].body.text);
    }
    ContentStep(ls, n, how);
    UndisclosedField(RecordOf(ls, n, how), Governing(ls, n + 1), ls[n].body, EuridKeys(parseDate));
  }

  lemma UndisclosedBody(raw: string)
    ensures Undisclosed(raw) ==>
      var line := Classify(raw);
      && line.Content? && (line.body.Bare? <==> ':' !in TrimSpace(raw))
      && (line.body.Nothing? || (line.body.Bare? && Contains(ToLower(line.body.text), "not disclosed")))
  {
  }

  lemma UndisclosedField(r: Record, section: Section, body: Body, keys: Keys<MainField>)
    requires body.Nothing? || (body.Bare? && keys.nameserver(body.text) == "" && !keys.signed(body.text))
    ensures SetField(r, section, body, ReadBy(keys)) ==
      if body.Bare? && section == Dnssec then r.(main := r.main.(dnssecSigned := Some(false))) else r
  {
    var m' := SetMain(r.main, section, body, ReadBy(keys));
    match (section, body)
    case (NameServers, Bare(text)) => assert m' == SetNameserver(r.main, keys.nameserver(text));
    case (Dnssec, Bare(text)) => assert m' == r.main.(dnssecSigned := Some(keys.signed(text)));
    case _ =>
  }

  lemma SplitTwoLines(first: string, second: string)
    requires '\n' !in first && '\n' !in second
    ensures Split(first + "\n" + second, '\n') == [first, second]
  {
    var text := first + "\n" + second;
    assert Index(text, '\n') == |first| by {
      assert text[|first|] == '\n';
      assert forall j :: 0 <= j < |first| ==> text[j] == first[j];
    }
    assert text[..|first|] == first && text[|first| + 1..] == second;
    assert Index(second, '\n') == -1;
  }

  /** A text that contains a phrase, in lower case, has every character of it. */
  lemma PhraseNeedsCharacter(text: string, phrase: string, i: nat)
    requires i < |phrase|
    ensures Contains(ToLower(text), phrase) ==> exists j :: 0 <= j < |text| && LowerChar(text[j]) == phrase[i]
  {
    if at :| 0 <= at <= |text| && OccursAt(ToLower(text), phrase, at) {
      assert ToLower(text)[at..at + |phrase|][i] == ToLower(text)[at + i] == LowerChar(text[at + i]);
    }
  }

  const HEADING := "DNSSEC:"
  const HIDDEN := "\tNOT DISCLOSED!"
  const UNDISCLOSED_RESPONSE := HEADING + "\n" + HIDDEN

  lemma UndisclosedIsNotAvailable()
    ensures !SaysAvailable(UNDISCLOSED_RESPONSE)
  {
    hide Contains, ToLower;
    PhraseNeedsCharacter(UNDISCLOSED_RESPONSE, "status: available", 2);
    PhraseNeedsCharacter(UNDISCLOSED_RESPONSE, "not found", 4);
    PhraseNeedsCharacter(UNDISCLOSED_RESPONSE, "no entries found", 11);
  }

  /** An indented line without a colon is handed to its section as it is. */
  lemma ReadsAsBare(raw: string, line: string)
    requires raw != "" && raw[0] == '\t' && TrimSpace(raw) == line
    requires line != "" && line[0] != '%' && ':' !in line
    ensures Classify(raw) == Content(true, Bare(line))
  {
    assert line[|line| - 1] != ':';
    assert Cut(line).None?;
  }

  lemma ReadsAsHeader(raw: string, name: string)
    requires TrimSpace(raw) == name + ":" && name != "" && name[0] != '%' && ':' !in name
    ensures Classify(raw) == Header(SectionNamed(ToLower(name)))
  {
    var line := name + ":";
    assert line[0] == name[0] && line[..|line| - 1] == name && line[|line| - 1..] == ":";
  }

  lemma DnssecHeading()
    ensures Classify(HEADING) == Header(Dnssec)
  {
    hide Classify, TrimSpace, Cut;
    TrimsTo(HEADING, 0, HEADING);
    ReadsAsHeader(HEADING, "DNSSEC");
    assert ToLower("DNSSEC") == "dnssec";
  }

  lemma UndisclosedLine()
    ensures Classify(HIDDEN) == Content(true, Bare("NOT DISCLOSED!"))
  {
    hide Classify, TrimSpace, Cut;
    TrimsTo(HIDDEN, 1, "NOT DISCLOSED!");
    ReadsAsBare(HIDDEN, "NOT DISCLOSED!");
  }

  /** A DNSSEC heading and one colon-free line below it. */
  lemma FlagOfTwoLines(ls: seq<Line>, text: string, keys: Keys<MainField>)
    requires |ls| == 2 && ls[0] == Header(Dnssec) && ls[1] == Content(true, Bare(text))
    ensures MainAfter(ls, 2, ReadBy(keys)).dnssecSigned == Some(keys.signed(text))
  {
    GoverningStep(ls, 0);
    GoverningStep(ls, 1);
    FlagHolds(ls, 2, keys, 1);
  }

  /** So an undisclosed line can reach a record: this response reads as "not signed". */
  lemma UndisclosedReachesRecord(domain: string, parseDate: string -> Option<int>)
    ensures Parsed(UNDISCLOSED_RESPONSE, domain, parseDate).main.dnssecSigned == Some(false)
  {
    SplitTwoLines(HEADING, HIDDEN);
    UndisclosedIsNotAvailable();
    DnssecHeading();
    UndisclosedLine();
    FlagOfTwoLines(Classified([HEADING, HIDDEN], Classify), "NOT DISCLOSED!", EuridKeys(parseDate));
    assert |ToLower("NOT DISCLOSED!")| == 14;
  }

  // ---------------------------------------------- what headings and keys mean

  lemma ReadsAsPair(raw: string, line: string, kv: KeyValue)
    requires raw != "" && raw[0] == '\t' && TrimSpace(raw) == line && line != "" && line[0] != '%'
    requires Cut(line) == Some(kv) && kv.value != "" && !Contains(ToLower(kv.value), "not disclosed") && !IsHeader(line)
    ensures Classify(raw) == Content(true, Pair(kv.key, kv.value))
  {
    hide TrimSpace, ToLower, SectionNamed, Cut, IsHeader, Contains;
  }

  lemma WrittenIsNoHeader(kv: KeyValue)
    requires Writable(kv)
    ensures !IsHeader(Written(kv))
  {
    var line := Written(kv);
    assert line[..|line| - 1][|kv.key|] == ':';
  }

  /** Written with a tab in front, a pair is trimmed to what was written. */
  lemma WrittenTrims(kv: KeyValue)
    requires Writable(kv)
    ensures TrimSpace("\t" + Written(kv)) == Written(kv) && Written(kv) != "" && Written(kv)[0] == kv.key[0]
    ensures kv.key[0] != '%' && kv.value != ""
  {
    hide TrimSpace;
    var line := Written(kv);
    assert line[|line| - 1] == kv.value[|kv.value| - 1];
    TrimsTo("\t" + line, 1, line);
  }

  lemma PairIsRead(kv: KeyValue)
    requires Writable(kv) && !Contains(ToLower(kv.value), "not disclosed")
    ensures Classify("\t" + Written(kv)) == Content(true, Pair(kv.key, kv.value))
  {
    hide *;
    var line, raw := Written(kv), "\t" + Written(kv);
    WrittenIsCut(kv);
    WrittenIsNoHeader(kv);
    WrittenTrims(kv);
    ReadsAsPair(raw, line, kv);
  }

  lemma HeadingIsRead(h: string)
    requires h != "" && !IsSpace(h[0]) && h[0] != '%' && ':' !in h
    ensures Classify(h + ":") == Header(SectionNamed(ToLower(h)))
  {
    var line := h + ":";
    TrimsTo(line, 0, line);
    ReadsAsHeader(line, h);
  }

  /** The response consists of one section, written out, with every value disclosed. */
  ghost predicate WritesSection(lines: seq<string>, h: string, pairs: seq<KeyValue>) {
    && h != "" && !IsSpace(h[0]) && h[0] != '%' && ':' !in h
    && |lines| == |pairs| + 1 && lines[0] == h + ":"
    && forall i :: 0 <= i < |pairs| ==> WritesPair(lines[i + 1], pairs[i])
  }

  predicate WritesPair(line: string, kv: KeyValue) {
    Writable(kv) && !Contains(ToLower(kv.value), "not disclosed") && line == "\t" + Written(kv)
  }

  lemma SectionIsRead(lines: seq<string>, h: string, pairs: seq<KeyValue>)
    requires WritesSection(lines, h, pairs)
    ensures OneSection(Classified(lines, Classify), SectionNamed(ToLower(h)), pairs)
  {
    hide Classify, TrimSpace;
    HeadingIsRead(h);
    forall i | 0 <= i < |pairs| ensures Classify(lines[i + 1]) == Content(true, Pair(pairs[i].key, pairs[i].value)) {
      PairIsRead(pairs[i]);
    }
  }

  /** A contact section says nothing about the top-level fields. */
  lemma {:induction false} SectionLeavesMain(ls: seq<Line>, section: Section, pairs: seq<KeyValue>, n: nat,
                                             how: Reading)
    requires OneSection(ls, section, pairs) && n <= |ls| && section !in {Top, Dnssec}
    ensures MainAfter(ls, n, how) == NO_MAIN
  {
    if n > 0 {
      SectionLeavesMain(ls, section, pairs, n - 1, how);
      if n > 1 {
        HeadingGoverns(ls, section, pairs, n);
        assert ls[(n - 2) + 1] == Content(true, Pair(pairs[n - 2].key, pairs[n - 2].value));
      }
    }
  }

  /** Which lines say nothing, which are headings, and which of the others stay in their section. */
  lemma LineKinds(raw: string)
    ensures var t := TrimSpace(raw); t == "" || t[0] == '%' ==> Classify(raw) == Skip
    ensures var t := TrimSpace(raw);
      Classify(raw).Header? <==> t != "" && t[0] != '%' && t[|t| - 1] == ':' && ':' !in t[..|t| - 1]
    ensures Classify(raw).Content? && raw != "" ==> (Classify(raw).stays <==> raw[0] == ' ' || raw[0] == '\t')
  {
    hide TrimSpace, Cut, SectionNamed, ToLower, Contains;
    var t := TrimSpace(raw);
    if t != "" {
      assert t[..1] == [t[0]] && t[|t| - 1..] == [t[|t| - 1]];
    }
  }

  lemma SectionByName(name: string)
    ensures SectionNamed(name) == Registrant <==> name == "registrant"
    ensures SectionNamed(name) == Technical <==> name == "technical" || name == "tech"
    ensures SectionNamed(name) == Registrar <==> name == "registrar"
    ensures SectionNamed(name) == NameServers <==> name == "name servers" || name == "nameservers"
    ensures SectionNamed(name) == Dnssec <==> name == "dnssec"
    ensures SectionNamed(name) == Top <==>
      name !in ["registrant", "technical", "tech", "registrar", "name servers", "nameservers", "keys", "dnssec"]
  {
  }

  /** Which contact a section fills in, whatever its lines; the section of keys changes nothing. */
  lemma HeadingsName(lines: seq<string>, h: string, pairs: seq<KeyValue>, how: Reading)
    requires WritesSection(lines, h, pairs)
    ensures var r, name := RecordOf(Classified(lines, Classify), |lines|, how), ToLower(h);
      && (name == "registrant" ==> r == NO_RECORD.(registrant := Contact(pairs, how.contact)))
      && (name == "technical" || name == "tech" ==> r == NO_RECORD.(techContact := Contact(pairs, how.contact)))
      && (name == "registrar" ==> r == NO_RECORD.(registrar := Contact(pairs, how.registrar)))
      && (name == "keys" ==> r == NO_RECORD)
  {
    hide Classify, SectionNamed, ToLower;
    var ls, section := Classified(lines, Classify), SectionNamed(ToLower(h));
    SectionIsRead(lines, h, pairs);
    SectionPairs(ls, section, pairs, |ls|, {Registrant});
    SectionPairs(ls, section, pairs, |ls|, {Technical});
    SectionPairs(ls, section, pairs, |ls|, {Registrar});
    assert pairs[..|pairs|] == pairs;
    SectionByName(ToLower(h));
    if section !in {Top, Dnssec} {
      SectionLeavesMain(ls, section, pairs, |ls|, how);
    }
  }

  /** What a key means in the registrant and the technical contact, in any letter case. */
  lemma ContactKeysMean(e: Entity, key: string, value: string)
    ensures var e', k := SetContact(e, ContactFieldOf(key), value), ToLower(key);
      && (k == "name" ==> e' == e.(name := value))
      && (k == "organisation" || k == "organization" ==> e' == e.(organization := value))
      && (k == "email" ==> e' == e.(email := value))
      && (k == "phone" ==> e' == e.(phone := value))
      && (k == "fax" ==> e' == e.(fax := value))
      && (e' != e ==> k in ["name", "organisation", "organization", "email", "phone", "fax"])
  {
  }

  /** What a key means in the registrar: a website stands in its address. */
  lemma RegistrarKeysMean(e: Entity, key: string, value: string)
    ensures var e', k := SetContact(e, RegistrarFieldOf(key), value), ToLower(key);
      && (k == "name" ==> e' == e.(name := value))
      && (k == "website" ==> e' == e.(address := value))
      && (e' != e ==> k in ["name", "website"])
  {
  }

  /** What a key means at top level. */
  lemma MainKeysMean(m: Main, key: string, value: string, parseDate: string -> Option<int>)
    ensures var m', k := TopUpdate(EuridKeys(parseDate))(m, KeyValue(key, value)), ToLower(key);
      && (k == "domain" ==> m' == m.(domainName := ToLower(value)))
      && (k == "status" ==> m' == m.(status := m.status + [value]))
      && (k == "registered" && parseDate(value).Some? ==> m' == m.(createdDate := parseDate(value)))
      && (m' != m ==> k in ["domain", "status", "registered"])
  {
    assert TopUpdate(EuridKeys(parseDate))(m, KeyValue(key, value)) ==
      SetTop(m, MainFieldOf(key), value, EuridKeys(parseDate));
  }

  /** A host is read in lower case and without the dot at its end; a text that is no host name is dropped. */
  lemma NameserverRead(host: string, dot: string)
    requires Tight(host) && host[|host| - 1] != '.' && dot in ["", "."]
    ensures NormalizeNameserver(host + dot) ==
      if ' ' in host || '=' in host || '.' !in host then "" else ToLower(host)
  {
    hide TrimSpace, TrimSuffix;
    TrimsTo(host + dot, 0, host + dot);
    DotDropped(host, dot);
    LowerKeeps(host, ' ');
    LowerKeeps(host, '=');
    LowerKeeps(host, '.');
  }

  lemma LowerCharKeeps(d: char, c: char)
    requires c in [' ', '=', '.']
    ensures LowerChar(d) == c <==> d == c
  {
    if 'A' <= d <= 'Z' {
      var n := (d as int) - ('A' as int) + ('a' as int);
      assert LowerChar(d) as int == n >= 'a' as int;
    }
  }

  lemma LowerKeeps(s: string, c: char)
    requires c in [' ', '=', '.']
    ensures c in s <==> c in ToLower(s)
  {
    if c in s {
      var i :| 0 <= i < |s| && s[i] == c;
      assert ToLower(s)[i] == c;
    }
    forall i | 0 <= i < |s| && ToLower(s)[i] == c ensures s[i] == c {
      LowerCharKeeps(s[i], c);
    }
  }

  /** What the lines of the nameserver and the DNSSEC section say. */
  lemma SectionLinesMean(m: Main, host: string, dot: string, key: string, value: string,
                         parseDate: string -> Option<int>)
    requires Tight(host) && host[|host| - 1] != '.' && dot in ["", "."]
    ensures var how, signed := ReadBy(EuridKeys(parseDate)), ToLower(value) in ["signeddelegation", "yes", "signed"];
      && SetMain(m, NameServers, Bare(host + dot), how) ==
        (if ' ' in host || '=' in host || '.' !in host then m
         else m.(nameservers := m.nameservers + [ToLower(host)]))
      && SetMain(m, Dnssec, Bare(value), how) == m.(dnssecSigned := Some(signed))
      && SetMain(m, Dnssec, Pair(key, value), how) == m.(dnssecSigned := Some(signed))
  {
    var keys := EuridKeys(parseDate);
    hide NormalizeNameserver, ToLower;
    NameserverRead(host, dot);
    assert ReadBy(keys).nameserver(m, host + dot) == SetNameserver(m, NormalizeNameserver(host + dot));
    assert ReadBy(keys).signed(m, value) == m.(dnssecSigned := Some(MeansSigned(value)));
  }
}
