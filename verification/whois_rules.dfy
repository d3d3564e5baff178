/** The per-TLD WHOIS grammar tables: `genericTlds`, `countryTlds`, the merged
    `tldPatterns` and the `supplementalTlds` alias table.

    A grammar is an object from field name to regular-expression source text, in
    declaration order; the optional `dateFormat` entry is a moment.js format, not a
    pattern. Pattern texts are the JavaScript string values (escapes already
    resolved), written here as Dafny verbatim strings. */
module WhoisRules {
  import opened Dicts

  /** The field names a grammar may declare (`dateFormat` is not a pattern). */
  datatype Field =
    | Registrar | UpdatedDate | CreationDate | ExpirationDate
    | Status | NotFound | RateLimited | Nameservers | DateFormat

  /** The property name the field has in the source tables and in the output record. */
  function FieldName(f: Field): string {
    match f
    case Registrar => "registrar"
    case UpdatedDate => "updatedDate"
    case CreationDate => "creationDate"
    case ExpirationDate => "expirationDate"
    case Status => "status"
    case NotFound => "notFound"
    case RateLimited => "rateLimited"
    case Nameservers => "nameservers"
    case DateFormat => "dateFormat"
  }

  /** A grammar: field to pattern text, in declaration order. */
  type Grammar = seq<(Field, string)>

  /** The fields of a grammar, in declaration order (`Object.keys`). */
  function FieldsOf(g: seq<(Field, string)>): (fs: seq<Field>)
    ensures |fs| == |g|
  {
    seq(|g|, i requires 0 <= i < |g| => g[i].0)
  }

  predicate Declares(g: seq<(Field, string)>, f: Field) {
    f in FieldsOf(g)
  }

  /** The pattern text of a field: the latest declaration wins, as in an object literal. */
  function PatternOf(g: seq<(Field, string)>, f: Field): string
    requires Declares(g, f)
  {
    if g[|g| - 1].0 == f then g[|g| - 1].1
    else
      assert FieldsOf(g) == FieldsOf(g[..|g| - 1]) + [g[|g| - 1].0];
      PatternOf(g[..|g| - 1], f)
  }

  // ---------------------------------------------------------------------------
  // Generic TLDs
  // ---------------------------------------------------------------------------

  const ComGrammar: Grammar := [
    (Registrar, @"Registrar: *(.+)"),
    (UpdatedDate, @"Updated Date: *(.+)"),
    (CreationDate, @"Creation Date: *(.+)"),
    (ExpirationDate, @"Expir\w+ Date: *(.+)"),
    (Status, @"Status:\s*(.+)\s*\n"),
    (NotFound, @"No match for ")]

  const OrgGrammar: Grammar := [
    (Registrar, @"Registrar: *(.+)"),
    (UpdatedDate, @"Updated Date: *(.+)"),
    (CreationDate, @"Creation Date: *(.+)"),
    (ExpirationDate, @"Expir\w+ Date: *(.+)"),
    (Status, @"Status: *(.+)"),
    (NotFound, @"^(NOT FOUND|Domain not found)")]

  const InfoGrammar: Grammar := [
    (Registrar, @"Registrar: *(.+)"),
    (UpdatedDate, @"Updated Date: *(.+)"),
    (CreationDate, @"Creation Date: *(.+)"),
    (ExpirationDate, @"Registrar Registration Expiration Date: *(.+)"),
    (Status, @"Status: *(.+)"),
    (NotFound, @"^(NOT FOUND|Domain not found)")]

  const CoGrammar: Grammar := [
    (Registrar, @"Registrar: *(.+)"),
    (UpdatedDate, @"Updated Date: *(.+)"),
    (CreationDate, @"Creation Date: *(.+)"),
    (ExpirationDate, @"Expir\w+ Date: *(.+)"),
    (Status, @"Status:\s*(.+)\s*\n"),
    (NotFound, @"No Data Found")]

  const DefaultGrammar: Grammar := [
    (Registrar, @"Registrar: *(.+)"),
    (UpdatedDate, @"Updated Date: *(.+)"),
    (CreationDate, @"Creat(ed|ion) Date: *(.+)"),
    (ExpirationDate, @"Expir\w+ Date: *(.+)"),
    (Status, @"Status:\s*(.+)\s*\n"),
    (DateFormat, @"YYYY-MM-DDThh:mm:ssZ"),
    (NotFound, @"(No match for |Domain not found|NOT FOUND\s)")]

  /** `genericTlds`, in declaration order. */
  const GenericTlds: Dict<Grammar> := [
    (".com", ComGrammar),
    (".org", OrgGrammar),
    (".info", InfoGrammar),
    (".co", CoGrammar),
    ("default", DefaultGrammar)
  ]


  // ---------------------------------------------------------------------------
  // Country-code TLDs
  // ---------------------------------------------------------------------------

  const AuGrammar: Grammar := [
    (UpdatedDate, @"Last Modified: *(.+)"),
    (Registrar, @"Registrar Name: *(.+)"),
    (Status, @"Status: *(.+)"),
    (RateLimited, @"WHOIS LIMIT EXCEEDED"),
    (NotFound, @"^NOT FOUND")]

  const UsGrammar: Grammar := [
    (Registrar, @"Registrar: *(.+)"),
    (Status, @"Domain Status: *(.+)"),
    (CreationDate, @"Creation Date: *(.+)"),
    (ExpirationDate, @"Registrar Registration Expiration Date: *(.+)"),
    (UpdatedDate, @"Updated Date: *(.+)"),
    (NotFound, @"^No Data Found"),
    (Nameservers, @"Name Server: *([\S]+)"),
    (DateFormat, @"YYYY-MM-DDThh:mm:ssZ")]

  const RuGrammar: Grammar := [
    (Registrar, @"registrar: *(.+)"),
    (CreationDate, @"created: *(.+)"),
    (ExpirationDate, @"paid-till: *(.+)"),
    (Status, @"state: *(.+)"),
    (NotFound, @"No entries found")]

  const PtGrammar: Grammar := [
    (Status, @"Domain Status: *(.+)"),
    (CreationDate, @"Creation Date\.*: *([\S]+)"),
    (ExpirationDate, @"Expiration Date\.*: *([\S]+)"),
    (Nameservers, @"Name Server: ([\S]+)"),
    (NotFound, @"No Match"),
    (RateLimited, @"maximum number of requests per second exceeded"),
    (DateFormat, @"DD/MM/YYYY hh:mm:ss")]

  const JpGrammar: Grammar := [
    (CreationDate, @"\[Registered Date\]\s*(.+)"),
    (UpdatedDate, @"\[Last Update\]\s?(.+)"),
    (Status, @"\[State\]\s*(.+)"),
    (NotFound, @"No match!!"),
    (DateFormat, @"YYYY/MM/DD")]

  const PlGrammar: Grammar := [
    (Registrar, @"REGISTRAR: *\s*(.+)"),
    (Status, @"Registration status:\n\s*(.+)"),
    (CreationDate, @"created: *(.+)"),
    (ExpirationDate, @"renewal date: *(.+)"),
    (UpdatedDate, @"last modified: *(.+)"),
    (NotFound, @"No information available about domain name"),
    (DateFormat, @"YYYY.MM.DD hh:mm:ss")]

  const BrGrammar: Grammar := [
    (Status, @"status: *(.+)"),
    (CreationDate, @"created: *(.+)"),
    (ExpirationDate, @"expires: *(.+)"),
    (UpdatedDate, @"changed: *(.+)"),
    (DateFormat, @"YYYYMMDD"),
    (NotFound, @"No match for ")]

  const EuGrammar: Grammar := [
    (Registrar, @"Registrar: *\n *Name: *([^\n\r]+)"),
    (NotFound, @"Status: AVAILABLE")]

  const EeGrammar: Grammar := [
    (Status, @"Domain: *[\n\r]+\s*name: *[^\n\r]+\sstatus: *([^\n\r]+)"),
    (CreationDate, @"Domain: *[\n\r]+\s*name: *[^\n\r]+\sstatus: *[^\n\r]+\sregistered: *([^\n\r]+)"),
    (UpdatedDate, @"Domain: *[\n\r]+\s*name: *[^\n\r]+\sstatus: *[^\n\r]+\sregistered: *[^\n\r]+\schanged: *([^\n\r]+)"),
    (ExpirationDate, @"Domain: *[\n\r]+\s*name: *[^\n\r]+\sstatus: *[^\n\r]+\sregistered: *[^\n\r]+\schanged: *[^\n\r]+\sexpire: *([^\n\r]+)"),
    (Registrar, @"Registrar: *[\n\r]+\s*name: *([^\n\r]+)"),
    (NotFound, @"Domain not found"),
    (DateFormat, @"YYYY-MM-DD")]

  const KrGrammar: Grammar := [
    (CreationDate, @"Registered Date\s*: *(.+)"),
    (UpdatedDate, @"Last Updated Date\s*: *(.+)"),
    (ExpirationDate, @"Expiration Date\s*: *(.+)"),
    (Registrar, @"Authorized Agency\s*: *(.+)"),
    (DateFormat, @"YYYY. MM. DD."),
    (NotFound, @"The requested domain was not found ")]

  const BgGrammar: Grammar := [
    (Status, @"registration status:\s*(.+)"),
    (NotFound, @"registration status: available"),
    (RateLimited, @"Query limit exceeded")]

  const DeGrammar: Grammar := [
    (Status, @"Status: *(.+)"),
    (UpdatedDate, @"Changed: *(.+)"),
    (Nameservers, @"Nserver: ([\S]+)"),
    (NotFound, @"Status: *free")]

  const AtGrammar: Grammar := [
    (UpdatedDate, @"changed: *(.+)"),
    (Registrar, @"registrar: *(.+)"),
    (NotFound, @" nothing found"),
    (DateFormat, @"YYYYMMDD hh:mm:ss"),
    (RateLimited, @"Quota exceeded")]

  const CaGrammar: Grammar := [
    (Status, @"Domain Status: *(.+)"),
    (UpdatedDate, @"Updated Date: *(.+)"),
    (CreationDate, @"Creation Date: *(.+)"),
    (ExpirationDate, @"Expiry Date: *(.+)"),
    (Registrar, @"Registrar: *(.+)"),
    (NotFound, @"Not found: ")]

  const BeGrammar: Grammar := [
    (Registrar, @"Registrar: *[\n\r]+\s*Name:\s*(.+)"),
    (Status, @"Status:\s*(.+)"),
    (CreationDate, @"Registered: *(.+)"),
    (DateFormat, @"ddd MMM DD YYYY"),
    (NotFound, @"Status:\s*AVAILABLE")]

  const KgGrammar: Grammar := [
    (CreationDate, @"Record created:\s*(.+)"),
    (ExpirationDate, @"Record expires on:\s*(.+)"),
    (UpdatedDate, @"Record last updated on:\s*(.+)"),
    (DateFormat, @"ddd MMM DD HH:mm:ss YYYY"),
    (NotFound, @"domain is available for registration")]

  const IdGrammar: Grammar := [
    (CreationDate, @"Created On:(.+)"),
    (ExpirationDate, @"Expiration Date(.+)"),
    (UpdatedDate, @"Last Updated On(.+)"),
    (Registrar, @"Sponsoring Registrar Organization:(.+)"),
    (Status, @"Status:(.+)"),
    (NotFound, @"DOMAIN NOT FOUND"),
    (DateFormat, @"DD-MMM-YYYY HH:mm:ss UTC")]

  const SkGrammar: Grammar := [
    (CreationDate, @"Created:\s*(.+)"),
    (ExpirationDate, @"Valid Until:\s*(.+)"),
    (Status, @"EPP Status:\s*(.+)"),
    (UpdatedDate, @"Updated:\s*(.+)"),
    (Registrar, @"Registrar:\s*(.+)"),
    (DateFormat, @"YYYY-MM-DD"),
    (NotFound, @"Domain not found")]

  const SeGrammar: Grammar := [
    (CreationDate, @"created\.*: *(.+)"),
    (UpdatedDate, @"modified\.*: *(.+)"),
    (ExpirationDate, @"expires\.*: *(.+)"),
    (Status, @"status\.*: *(.+)"),
    (Registrar, @"registrar: *(.+)"),
    (Nameservers, @"nserver: *([\S]+)"),
    (DateFormat, @"YYYY-MM-DD"),
    (NotFound, @"\"" not found.")]

  const IsGrammar: Grammar := [
    (CreationDate, @"created\.*: *(.+)"),
    (ExpirationDate, @"expires\.*: *(.+)"),
    (DateFormat, @"MMM DD YYYY"),
    (NotFound, @"No entries found for query")]

  const ItGrammar: Grammar := [
    (CreationDate, @"Created\.*: *(.+)"),
    (ExpirationDate, @"Expire Date\.*: *(.+)"),
    (UpdatedDate, @"Last Update: *(.+)"),
    (Status, @"Status:\s*(.+)\s*\n"),
    (DateFormat, @"YYYY-MM-DD"),
    (NotFound, @"AVAILABLE")]

  /** `countryTlds`, in declaration order. */
  const CountryTlds: Dict<Grammar> := [
    (".au", AuGrammar),
    (".us", UsGrammar),
    (".ru", RuGrammar),
    (".pt", PtGrammar),
    (".jp", JpGrammar),
    (".pl", PlGrammar),
    (".br", BrGrammar),
    (".eu", EuGrammar),
    (".ee", EeGrammar),
    (".kr", KrGrammar),
    (".bg", BgGrammar),
    (".de", DeGrammar),
    (".at", AtGrammar),
    (".ca", CaGrammar),
    (".be", BeGrammar),
    (".kg", KgGrammar),
    (".id", IdGrammar),
    (".sk", SkGrammar),
    (".se", SeGrammar),
    (".is", IsGrammar),
    (".it", ItGrammar)
  ]


  // ---------------------------------------------------------------------------
  // Aliases and the merged table
  // ---------------------------------------------------------------------------

  /** Source TLD to the TLDs that reuse its grammar, in declaration order. */
  const SupplementalTlds: seq<(string, seq<string>)> := [
    (".com", [".net", ".name"]),
    (".org", [".me", ".mobi"]),
    (".ru", [".\U{0440}\U{0444}", ".su"]),
    (".us", [".biz"]),
    (".se", [".nu"])
  ]

  /** `tldPatterns = {...genericTlds, ...countryTlds}`. */
  function TldPatterns(): Dict<Grammar> {
    Spread(GenericTlds, CountryTlds)
  }


  // ---------------------------------------------------------------------------
  // Field order of every grammar, as a reader sees it in the tables above
  // ---------------------------------------------------------------------------

  /** The declared fields of each `genericTlds` entry, in order. */
  const GenericFieldOrder: seq<seq<Field>> := [
    [Registrar, UpdatedDate, CreationDate, ExpirationDate, Status, NotFound],
    [Registrar, UpdatedDate, CreationDate, ExpirationDate, Status, NotFound],
    [Registrar, UpdatedDate, CreationDate, ExpirationDate, Status, NotFound],
    [Registrar, UpdatedDate, CreationDate, ExpirationDate, Status, NotFound],
    [Registrar, UpdatedDate, CreationDate, ExpirationDate, Status, DateFormat, NotFound]
  ]

  /** The declared fields of each `countryTlds` entry, in order. */
  const CountryFieldOrder: seq<seq<Field>> := [
    [UpdatedDate, Registrar, Status, RateLimited, NotFound],
    [Registrar, Status, CreationDate, ExpirationDate, UpdatedDate, NotFound, Nameservers, DateFormat],
    [Registrar, CreationDate, ExpirationDate, Status, NotFound],
    [Status, CreationDate, ExpirationDate, Nameservers, NotFound, RateLimited, DateFormat],
    [CreationDate, UpdatedDate, Status, NotFound, DateFormat],
    [Registrar, Status, CreationDate, ExpirationDate, UpdatedDate, NotFound, DateFormat],
    [Status, CreationDate, ExpirationDate, UpdatedDate, DateFormat, NotFound],
    [Registrar, NotFound],
    [Status, CreationDate, UpdatedDate, ExpirationDate, Registrar, NotFound, DateFormat],
    [CreationDate, UpdatedDate, ExpirationDate, Registrar, DateFormat, NotFound],
    [Status, NotFound, RateLimited],
    [Status, UpdatedDate, Nameservers, NotFound],
    [UpdatedDate, Registrar, NotFound, DateFormat, RateLimited],
    [Status, UpdatedDate, CreationDate, ExpirationDate, Registrar, NotFound],
    [Registrar, Status, CreationDate, DateFormat, NotFound],
    [CreationDate, ExpirationDate, UpdatedDate, DateFormat, NotFound],
    [CreationDate, ExpirationDate, UpdatedDate, Registrar, Status, NotFound, DateFormat],
    [CreationDate, ExpirationDate, Status, UpdatedDate, Registrar, DateFormat, NotFound],
    [CreationDate, UpdatedDate, ExpirationDate, Status, Registrar, Nameservers, DateFormat, NotFound],
    [CreationDate, ExpirationDate, DateFormat, NotFound],
    [CreationDate, ExpirationDate, UpdatedDate, Status, DateFormat, NotFound]
  ]

  lemma GenericFields(i: nat)
    requires i < |GenericTlds|
    ensures |GenericFieldOrder| == |GenericTlds|
    ensures FieldsOf(GenericTlds[i].1) == GenericFieldOrder[i]
  {
    if i == 0 {
      assert FieldsOf(ComGrammar) == GenericFieldOrder[0];
    }
    else if i == 1 {
      assert FieldsOf(OrgGrammar) == GenericFieldOrder[1];
    }
    else if i == 2 {
      assert FieldsOf(InfoGrammar) == GenericFieldOrder[2];
    }
    else if i == 3 {
      assert FieldsOf(CoGrammar) == GenericFieldOrder[3];
    }
    else if i == 4 {
      assert FieldsOf(DefaultGrammar) == GenericFieldOrder[4];
    }
  }

  lemma CountryFields(i: nat)
    requires i < |CountryTlds|
    ensures |CountryFieldOrder| == |CountryTlds|
    ensures FieldsOf(CountryTlds[i].1) == CountryFieldOrder[i]
  {
    if i < 7 {
      CountryFieldsA(i);
    } else if i < 14 {
      CountryFieldsB(i);
    } else {
      CountryFieldsC(i);
    }
  }

  lemma CountryFieldsA(i: nat)
    requires 0 <= i < 7 && i < |CountryTlds|
    ensures FieldsOf(CountryTlds[i].1) == CountryFieldOrder[i]
  {
    if i == 0 {
      assert FieldsOf(AuGrammar) == CountryFieldOrder[0];
    }
    else if i == 1 {
      assert FieldsOf(UsGrammar) == CountryFieldOrder[1];
    }
    else if i == 2 {
      assert FieldsOf(RuGrammar) == CountryFieldOrder[2];
    }
    else if i == 3 {
      assert FieldsOf(PtGrammar) == CountryFieldOrder[3];
    }
    else if i == 4 {
      assert FieldsOf(JpGrammar) == CountryFieldOrder[4];
    }
    else if i == 5 {
      assert FieldsOf(PlGrammar) == CountryFieldOrder[5];
    }
    else if i == 6 {
      assert FieldsOf(BrGrammar) == CountryFieldOrder[6];
    }
  }

  lemma CountryFieldsB(i: nat)
    requires 7 <= i < 14 && i < |CountryTlds|
    ensures FieldsOf(CountryTlds[i].1) == CountryFieldOrder[i]
  {
    if i == 7 {
      assert FieldsOf(EuGrammar) == CountryFieldOrder[7];
    }
    else if i == 8 {
      assert FieldsOf(EeGrammar) == CountryFieldOrder[8];
    }
    else if i == 9 {
      assert FieldsOf(KrGrammar) == CountryFieldOrder[9];
    }
    else if i == 10 {
      assert FieldsOf(BgGrammar) == CountryFieldOrder[10];
    }
    else if i == 11 {
      assert FieldsOf(DeGrammar) == CountryFieldOrder[11];
    }
    else if i == 12 {
      assert FieldsOf(AtGrammar) == CountryFieldOrder[12];
    }
    else if i == 13 {
      assert FieldsOf(CaGrammar) == CountryFieldOrder[13];
    }
  }

  lemma CountryFieldsC(i: nat)
    requires 14 <= i < 21 && i < |CountryTlds|
    ensures FieldsOf(CountryTlds[i].1) == CountryFieldOrder[i]
  {
    if i == 14 {
      assert FieldsOf(BeGrammar) == CountryFieldOrder[14];
    }
    else if i == 15 {
      assert FieldsOf(KgGrammar) == CountryFieldOrder[15];
    }
    else if i == 16 {
      assert FieldsOf(IdGrammar) == CountryFieldOrder[16];
    }
    else if i == 17 {
      assert FieldsOf(SkGrammar) == CountryFieldOrder[17];
    }
    else if i == 18 {
      assert FieldsOf(SeGrammar) == CountryFieldOrder[18];
    }
    else if i == 19 {
      assert FieldsOf(IsGrammar) == CountryFieldOrder[19];
    }
    else if i == 20 {
      assert FieldsOf(ItGrammar) == CountryFieldOrder[20];
    }
  }

  // ---------------------------------------------------------------------------
  // Properties of the tables
  // ---------------------------------------------------------------------------

  /** `tldPatterns` has exactly the keys of both tables; on a shared key the
      country entry wins, any other key keeps the one table's grammar. */
  lemma TldPatternsMerge(k: string)
    ensures HasKey(TldPatterns(), k) <==> HasKey(GenericTlds, k) || HasKey(CountryTlds, k)
    ensures Get(TldPatterns(), k) == if HasKey(CountryTlds, k) then Get(CountryTlds, k) else Get(GenericTlds, k)
  {
    KeysSpread(GenericTlds, CountryTlds);
    GetSpread(GenericTlds, CountryTlds, k);
  }

  /** No TLD is listed twice, in either table or in the merge. */
  lemma TablesHaveUniqueKeys()
    ensures UniqueKeys(GenericTlds) && UniqueKeys(CountryTlds)
    ensures UniqueKeys(TldPatterns())
  {
    UniqueSpread(GenericTlds, CountryTlds);
  }

  /** Generic grammars: only `default` declares a date format, and none declares a
      rate-limit or name-server pattern. */
  lemma GenericDeclarations(i: nat)
    requires i < |GenericTlds|
    ensures Declares(GenericTlds[i].1, DateFormat) <==> GenericTlds[i].0 == "default"
    ensures !Declares(GenericTlds[i].1, RateLimited) && !Declares(GenericTlds[i].1, Nameservers)
  {
    GenericFields(i);
  }

  /** Country grammars: each key is a dotted TLD and declares a not-found pattern;
      only .au, .pt, .bg and .at detect rate limiting, and only .us, .pt, .de and .se
      collect name servers. */
  lemma CountryDeclarations(i: nat)
    requires i < |CountryTlds|
    ensures |CountryTlds[i].0| > 1 && CountryTlds[i].0[0] == '.'
    ensures Declares(CountryTlds[i].1, NotFound)
    ensures Declares(CountryTlds[i].1, RateLimited) <==> CountryTlds[i].0 in {".au", ".pt", ".bg", ".at"}
    ensures Declares(CountryTlds[i].1, Nameservers) <==> CountryTlds[i].0 in {".us", ".pt", ".de", ".se"}
  {
    if i < 7 {
      CountryDeclarationsA(i);
    } else if i < 14 {
      CountryDeclarationsB(i);
    } else {
      CountryDeclarationsC(i);
    }
  }

  lemma CountryDeclarationsA(i: nat)
    requires 0 <= i < 7 && i < |CountryTlds|
    ensures |CountryTlds[i].0| > 1 && CountryTlds[i].0[0] == '.'
    ensures Declares(CountryTlds[i].1, NotFound)
    ensures Declares(CountryTlds[i].1, RateLimited) <==> CountryTlds[i].0 in {".au", ".pt", ".bg", ".at"}
    ensures Declares(CountryTlds[i].1, Nameservers) <==> CountryTlds[i].0 in {".us", ".pt", ".de", ".se"}
  {
    CountryFields(i);
  }

  lemma CountryDeclarationsB(i: nat)
    requires 7 <= i < 14 && i < |CountryTlds|
    ensures |CountryTlds[i].0| > 1 && CountryTlds[i].0[0] == '.'
    ensures Declares(CountryTlds[i].1, NotFound)
    ensures Declares(CountryTlds[i].1, RateLimited) <==> CountryTlds[i].0 in {".au", ".pt", ".bg", ".at"}
    ensures Declares(CountryTlds[i].1, Nameservers) <==> CountryTlds[i].0 in {".us", ".pt", ".de", ".se"}
  {
    CountryFields(i);
  }

  lemma CountryDeclarationsC(i: nat)
    requires 14 <= i < 21 && i < |CountryTlds|
    ensures |CountryTlds[i].0| > 1 && CountryTlds[i].0[0] == '.'
    ensures Declares(CountryTlds[i].1, NotFound)
    ensures Declares(CountryTlds[i].1, RateLimited) <==> CountryTlds[i].0 in {".au", ".pt", ".bg", ".at"}
    ensures Declares(CountryTlds[i].1, Nameservers) <==> CountryTlds[i].0 in {".us", ".pt", ".de", ".se"}
  {
    CountryFields(i);
  }

  /** The keys of both tables, in declaration order. */
  lemma TableKeys()
    ensures Keys(GenericTlds) == [".com", ".org", ".info", ".co", "default"]
    ensures Keys(CountryTlds) == [".au", ".us", ".ru", ".pt", ".jp", ".pl", ".br", ".eu", ".ee", ".kr", ".bg", ".de", ".at", ".ca", ".be", ".kg", ".id", ".sk", ".se", ".is", ".it"]
  {
  }

  /** The TLDs that have a grammar of their own. */
  lemma TldPatternKeys(k: string)
    ensures HasKey(TldPatterns(), k) <==> k in Keys(GenericTlds) + Keys(CountryTlds)
  {
    TldPatternsMerge(k);
  }

  /** Every alias source has a grammar, and no alias has one of its own, so
      installing the aliases neither binds `undefined` nor overwrites a grammar. */
  lemma AliasSourcesResolve()
    ensures forall i :: 0 <= i < |SupplementalTlds| ==> HasKey(TldPatterns(), SupplementalTlds[i].0)
    ensures forall i, a :: 0 <= i < |SupplementalTlds| && a in SupplementalTlds[i].1 ==> !HasKey(TldPatterns(), a)
  {
    forall i | 0 <= i < |SupplementalTlds|
      ensures HasKey(TldPatterns(), SupplementalTlds[i].0)
    {
      AliasSourceResolves(i);
    }
    forall i, a | 0 <= i < |SupplementalTlds| && a in SupplementalTlds[i].1
      ensures !HasKey(TldPatterns(), a)
    {
      AliasUnbound(i, a);
    }
  }

  lemma AliasSourceResolves(i: nat)
    requires i < |SupplementalTlds|
    ensures HasKey(TldPatterns(), SupplementalTlds[i].0)
  {
    TableKeys();
    TldPatternKeys(SupplementalTlds[i].0);
    assert SupplementalTlds[i].0 in Keys(GenericTlds) + Keys(CountryTlds);
  }

  lemma AliasUnbound(i: nat, a: string)
    requires i < |SupplementalTlds| && a in SupplementalTlds[i].1
    ensures !HasKey(TldPatterns(), a)
  {
    TldPatternKeys(a);
    TableKeys();
    var sup := SupplementalTlds;
    if i == 0 {
      assert sup[0].1 == [".net", ".name"];
      NotAKey(a, [".net", ".name"]);
    } else if i == 1 {
      assert sup[1].1 == [".me", ".mobi"];
      NotAKey(a, [".me", ".mobi"]);
    } else if i == 2 {
      assert sup[2].1 == [".\U{0440}\U{0444}", ".su"];
      NotAKey(a, [".\U{0440}\U{0444}", ".su"]);
    } else if i == 3 {
      assert sup[3].1 == [".biz"];
      NotAKey(a, [".biz"]);
    } else {
      assert sup[4].1 == [".nu"];
      NotAKey(a, [".nu"]);
    }
  }

  /** None of the given names is a key of either table. */
  lemma NotAKey(a: string, names: seq<string>)
    requires a in names
    requires names == [".net", ".name"] || names == [".me", ".mobi"] || names == [".\U{0440}\U{0444}", ".su"] || names == [".biz"] || names == [".nu"]
    ensures a !in [".com", ".org", ".info", ".co", "default"] + [".au", ".us", ".ru", ".pt", ".jp", ".pl", ".br", ".eu", ".ee", ".kr", ".bg", ".de", ".at", ".ca", ".be", ".kg", ".id", ".sk", ".se", ".is", ".it"]
  {
  }

  /** No alias is itself a source, and no alias is listed under two sources. */
  predicate AliasesDisjoint(sup: seq<(string, seq<string>)>) {
    && (forall i, j, a :: 0 <= i < |sup| && 0 <= j < |sup| && a in sup[i].1 ==> a != sup[j].0)
    && (forall i, j, a :: 0 <= i < j < |sup| && a in sup[i].1 ==> a !in sup[j].1)
  }

  /** The alias table is disjoint, and every name in it is a dotted TLD. */
  lemma AliasNamesDistinct()
    ensures AliasesDisjoint(SupplementalTlds)
    ensures forall i :: 0 <= i < |SupplementalTlds| ==> |SupplementalTlds[i].0| > 1 && SupplementalTlds[i].0[0] == '.'
    ensures forall i, a :: 0 <= i < |SupplementalTlds| && a in SupplementalTlds[i].1 ==> |a| > 1 && a[0] == '.'
  {
    AliasTableDistinct(SupplementalTlds);
  }

  lemma AliasTableDistinct(sup: seq<(string, seq<string>)>)
    requires sup == [(".com", [".net", ".name"]), (".org", [".me", ".mobi"]), (".ru", [".\U{0440}\U{0444}", ".su"]), (".us", [".biz"]), (".se", [".nu"])]
    ensures AliasesDisjoint(sup)
    ensures forall i :: 0 <= i < |sup| ==> |sup[i].0| > 1 && sup[i].0[0] == '.'
    ensures forall i, a :: 0 <= i < |sup| && a in sup[i].1 ==> |a| > 1 && a[0] == '.'
  {
  }

  /** An alias has no dot after its first character, so it is what `getTld`
      returns for any name ending in it. */
  lemma AliasesAreSingleLabels(i: nat, a: string)
    requires i < |SupplementalTlds| && a in SupplementalTlds[i].1
    ensures '.' !in a[1..]
  {
  }

  /** No generic TLD is also a country TLD, so the merge keeps every generic grammar. */
  lemma GenericNotCountry(i: nat)
    requires i < |GenericTlds|
    ensures !HasKey(CountryTlds, GenericTlds[i].0)
  {
    TableKeys();
  }

  /** A declaration no later one overrides gives the field's pattern. */
  lemma {:induction false} PatternOfAt(g: seq<(Field, string)>, i: nat)
    requires i < |g| && forall j :: i < j < |g| ==> g[j].0 != g[i].0
    ensures Declares(g, g[i].0) && PatternOf(g, g[i].0) == g[i].1
  {
    assert FieldsOf(g)[i] == g[i].0;
    if i < |g| - 1 {
      var init := g[..|g| - 1];
      PatternOfAt(init, i);
    }
  }

  /** .org and .info share a not-found pattern anchored at the start of the text. */
  lemma OrgInfoNotFoundAnchored()
    ensures Declares(OrgGrammar, NotFound) && Declares(InfoGrammar, NotFound)
    ensures PatternOf(OrgGrammar, NotFound) == PatternOf(InfoGrammar, NotFound)
    ensures PatternOf(OrgGrammar, NotFound)[..1] == "^"
  {
    assert FieldsOf(OrgGrammar) == [Registrar, UpdatedDate, CreationDate, ExpirationDate, Status, NotFound];
    assert FieldsOf(InfoGrammar) == [Registrar, UpdatedDate, CreationDate, ExpirationDate, Status, NotFound];
    PatternOfAt(OrgGrammar, 5);
    PatternOfAt(InfoGrammar, 5);
  }
}
