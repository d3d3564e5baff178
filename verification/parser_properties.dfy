/** What `parseRawData` and the rule table it reads promise: the rule table binds
    every grammar TLD and every alias, the field loop fails at the first matching
    terminal pattern, and otherwise each output field is assembled from its own
    patterns alone, in grammar key order. */
module ParserProperties {
  import opened Wrappers
  import opened Text
  import opened Dicts
  import opened WhoisRules
  import opened Parser

  // ---------------------------------------------------------------------------
  // The rule table
  // ---------------------------------------------------------------------------

  /** Compiling a table keeps its keys and compiles each grammar. */
  lemma {:induction false} CompileAllGet(d: Dict<Grammar>, k: string)
    ensures Get(CompileAll(d), k) == if Get(d, k).Some? then Some(Some(Compile(Get(d, k).value))) else None
  {
    if |d| > 0 {
      var init := d[..|d| - 1];
      CompileAllGet(init, k);
      GetSet(CompileAll(init), d[|d| - 1].0, Some(Compile(d[|d| - 1].1)), k);
    }
  }

  /** Binding one source's aliases: each alias reads the source's rules, every other
      TLD is untouched. */
  lemma {:induction false} BindAliasesGet(t: RuleTable, source: string, aliases: seq<string>, k: string)
    requires source !in aliases
    ensures Get(BindAliases(t, source, aliases), k) == if k in aliases then Some(Lookup(t, source)) else Get(t, k)
  {
    if |aliases| > 0 {
      var init := aliases[..|aliases| - 1];
      var t' := BindAliases(t, source, init);
      BindAliasesGet(t, source, init, k);
      BindAliasesGet(t, source, init, source);
      GetSet(t', aliases[|aliases| - 1], Lookup(t', source), k);
      assert aliases == init + [aliases[|aliases| - 1]];
    }
  }

  /** Installing a disjoint alias table binds every alias to its source's rules and
      leaves every other TLD as compiled. */
  lemma {:induction false} InstallAliasesGet(t: RuleTable, sup: seq<(string, seq<string>)>, k: string)
    requires AliasesDisjoint(sup)
    ensures forall i :: 0 <= i < |sup| && k in sup[i].1 ==> Get(InstallAliases(t, sup), k) == Some(Lookup(t, sup[i].0))
    ensures (forall i :: 0 <= i < |sup| ==> k !in sup[i].1) ==> Get(InstallAliases(t, sup), k) == Get(t, k)
  {
    if |sup| > 0 {
      var n := |sup| - 1;
      var init := sup[..n];
      var (source, aliases) := sup[n];
      assert AliasesDisjoint(init);
      assert source !in aliases;
      InstallAliasesGet(t, init, k);
      InstallAliasesGet(t, init, source);
      BindAliasesGet(InstallAliases(t, init), source, aliases, k);
      forall i | 0 <= i < |sup| && k in sup[i].1
        ensures Get(InstallAliases(t, sup), k) == Some(Lookup(t, sup[i].0))
      {
        if i < n {
          assert init[i] == sup[i];
          assert k !in aliases;
        }
      }
    }
  }

  /** A TLD with a grammar of its own gets that grammar, compiled. */
  lemma RulesForGrammarTld(k: string)
    requires HasKey(TldPatterns(), k)
    ensures Get(TldPatterns(), k).Some?
    ensures RulesFor(k) == Some(Compile(Get(TldPatterns(), k).value))
  {
    GetSomeIffHasKey(TldPatterns(), k);
    AliasSourcesResolve();
    AliasNamesDistinct();
    InstallAliasesGet(CompileAll(TldPatterns()), SupplementalTlds, k);
    CompileAllGet(TldPatterns(), k);
  }

  /** An alias is bound to the very rules of its source, which exist. */
  lemma RulesForAlias(i: nat, alias: string)
    requires i < |SupplementalTlds| && alias in SupplementalTlds[i].1
    ensures RulesFor(alias).Some?
    ensures RulesFor(alias) == RulesFor(SupplementalTlds[i].0)
  {
    AliasSourcesResolve();
    AliasNamesDistinct();
    InstallAliasesGet(CompileAll(TldPatterns()), SupplementalTlds, alias);
    RulesForGrammarTld(SupplementalTlds[i].0);
    CompileAllGet(TldPatterns(), SupplementalTlds[i].0);
  }

  /** Any other TLD (`default` among them, which has no dot) has no rules. */
  lemma RulesForUnknown(k: string)
    requires !HasKey(TldPatterns(), k)
    requires forall i :: 0 <= i < |SupplementalTlds| ==> k !in SupplementalTlds[i].1
    ensures RulesFor(k).None?
  {
    AliasNamesDistinct();
    InstallAliasesGet(CompileAll(TldPatterns()), SupplementalTlds, k);
    CompileAllGet(TldPatterns(), k);
    GetSomeIffHasKey(TldPatterns(), k);
  }

  /** `getTld` only ever yields a dotted suffix, so the `default` grammar is never
      selected: a TLD outside both tables and the aliases is unsupported. */
  lemma UnknownTldUnsupported(e: Engine, raw: string, domain: string)
    requires Utf16Length(raw) > 10
    requires GetTld(domain).Some?
    requires !HasKey(TldPatterns(), GetTld(domain).value)
    requires forall i :: 0 <= i < |SupplementalTlds| ==> GetTld(domain).value !in SupplementalTlds[i].1
    ensures GetTld(domain) != Some("default")
    ensures ParseRawData(e, Some(raw), domain) == Failure(Unsupported(domain))
  {
    RulesForUnknown(GetTld(domain).value);
  }

  // ---------------------------------------------------------------------------
  // Reference description of the field loop
  // ---------------------------------------------------------------------------

  /** A terminal field whose pattern matches the text. */
  predicate Trips(e: Engine, entry: (Field, Regex), raw: string) {
    (entry.0 == RateLimited || entry.0 == NotFound) && Test(e, entry.1, raw)
  }

  function TerminalError(f: Field, domain: string): ParseError {
    if f == RateLimited then RateLimitedError else NotRegistered(domain)
  }

  /** Every status value, over the status fields in key order, each in text order. */
  function StatusOf(e: Engine, entries: seq<(Field, Regex)>, raw: string): seq<string> {
    if |entries| == 0 then []
    else
      (if entries[0].0 == Status then Group1Values(e.matchAll(entries[0].1, raw)) else [])
      + StatusOf(e, entries[1..], raw)
  }

  /** Every name server, over the name-server fields in key order. */
  function NameserversOf(e: Engine, entries: seq<(Field, Regex)>, raw: string): seq<Nameserver> {
    if |entries| == 0 then []
    else
      (if entries[0].0 == Nameservers then NameserverRecords(Group1Values(e.matchAll(entries[0].1, raw))) else [])
      + NameserversOf(e, entries[1..], raw)
  }

  /** One event per date field whose pattern matches, in key order. */
  function EventsOf(e: Engine, dateFormat: Option<string>, entries: seq<(Field, Regex)>, raw: string): seq<Event> {
    if |entries| == 0 then []
    else
      var f := entries[0].0;
      var m := e.exec(entries[0].1, raw);
      (if IsDateField(f) && m.Some? then [Event(EventAction(f), EventDate(e, LastGroup(m.value), dateFormat))] else [])
      + EventsOf(e, dateFormat, entries[1..], raw)
  }

  /** The last group of the last registrar field that matches, if any does. */
  function RegistrarOf(e: Engine, entries: seq<(Field, Regex)>, raw: string): Option<Option<string>> {
    if |entries| == 0 then None
    else
      var later := RegistrarOf(e, entries[1..], raw);
      var m := e.exec(entries[0].1, raw);
      if later.Some? then later
      else if entries[0].0 == Registrar && m.Some? then Some(LastGroup(m.value))
      else None
  }

  /** The record a loop without terminal matches produces from `rec`. */
  function Accumulate(e: Engine, dateFormat: Option<string>, entries: seq<(Field, Regex)>, raw: string,
                      rec: WhoisRecord): WhoisRecord {
    var reg := RegistrarOf(e, entries, raw);
    rec.(status := Extend(rec.status, StatusOf(e, entries, raw)),
         nameservers := Extend(rec.nameservers, NameserversOf(e, entries, raw)),
         events := Extend(rec.events, EventsOf(e, dateFormat, entries, raw)),
         registrar := if reg.Some? then reg.value else rec.registrar)
  }

  lemma ExtendTwice<T>(o: Option<seq<T>>, a: seq<T>, b: seq<T>)
    ensures Extend(Extend(o, a), b) == Extend(o, a + b)
  {
    if |a| == 0 {
      assert a + b == b;
    } else if |b| == 0 {
      assert a + b == a;
    } else {
      assert o.GetOr([]) + a + b == o.GetOr([]) + (a + b);
    }
  }

  // ---------------------------------------------------------------------------
  // The field loop against the reference
  // ---------------------------------------------------------------------------

  /** The loop fails with the error of the first terminal field that matches,
      whatever comes after it: no partial record escapes. */
  lemma {:induction false} WalkFailure(e: Engine, dateFormat: Option<string>, entries: seq<(Field, Regex)>,
                                       raw: string, domain: string, rec: WhoisRecord, i: nat)
    requires NoDateFormat(entries)
    requires i < |entries| && Trips(e, entries[i], raw)
    requires forall j :: 0 <= j < i ==> !Trips(e, entries[j], raw)
    ensures Walk(e, dateFormat, entries, raw, domain, rec) == Failure(TerminalError(entries[i].0, domain))
  {
    if i > 0 {
      assert !Trips(e, entries[0], raw);
      var rest := entries[1..];
      assert forall j :: 0 <= j < i - 1 ==> rest[j] == entries[j + 1];
      var key := entries[0].0;
      var regex := entries[0].1;
      var vs := Group1Values(e.matchAll(regex, raw));
      var m := e.exec(regex, raw);
      if key == RateLimited || key == NotFound {
        WalkFailure(e, dateFormat, rest, raw, domain, rec, i - 1);
      } else if key == Status {
        WalkFailure(e, dateFormat, rest, raw, domain, rec.(status := Extend(rec.status, vs)), i - 1);
      } else if key == Nameservers {
        WalkFailure(e, dateFormat, rest, raw, domain,
                    rec.(nameservers := Extend(rec.nameservers, NameserverRecords(vs))), i - 1);
      } else if m.None? {
        WalkFailure(e, dateFormat, rest, raw, domain, rec, i - 1);
      } else if IsDateField(key) {
        var ev := Event(EventAction(key), EventDate(e, LastGroup(m.value), dateFormat));
        WalkFailure(e, dateFormat, rest, raw, domain, rec.(events := Extend(rec.events, [ev])), i - 1);
      } else {
        WalkFailure(e, dateFormat, rest, raw, domain, rec.(registrar := LastGroup(m.value)), i - 1);
      }
    }
  }

  /** The record after one field whose terminal pattern, if any, does not match. */
  function FieldStep(e: Engine, dateFormat: Option<string>, entry: (Field, Regex), raw: string, rec: WhoisRecord): WhoisRecord {
    var (key, regex) := entry;
    var vs := Group1Values(e.matchAll(regex, raw));
    var m := e.exec(regex, raw);
    if key == RateLimited || key == NotFound then rec
    else if key == Status then rec.(status := Extend(rec.status, vs))
    else if key == Nameservers then rec.(nameservers := Extend(rec.nameservers, NameserverRecords(vs)))
    else if m.None? then rec
    else if IsDateField(key) then rec.(events := Extend(rec.events, [Event(EventAction(key), EventDate(e, LastGroup(m.value), dateFormat))]))
    else rec.(registrar := LastGroup(m.value))
  }

  /** Without a matching terminal field the loop succeeds, and each field of the
      record holds exactly what its own patterns contribute, in key order. */
  lemma {:induction false} WalkSuccess(e: Engine, dateFormat: Option<string>, entries: seq<(Field, Regex)>,
                                       raw: string, domain: string, rec: WhoisRecord)
    requires NoDateFormat(entries)
    requires forall j :: 0 <= j < |entries| ==> !Trips(e, entries[j], raw)
    ensures Walk(e, dateFormat, entries, raw, domain, rec) == Success(Accumulate(e, dateFormat, entries, raw, rec))
  {
    if |entries| > 0 {
      var rest := entries[1..];
      assert forall j :: 0 <= j < |rest| ==> rest[j] == entries[j + 1];
      var next := FieldStep(e, dateFormat, entries[0], raw, rec);
      WalkStep(e, dateFormat, entries, raw, domain, rec);
      AccumulateStep(e, dateFormat, entries, raw, rec);
      WalkSuccess(e, dateFormat, rest, raw, domain, next);
    }
  }

  /** One step of the loop past a field that does not trip it. */
  lemma WalkStep(e: Engine, dateFormat: Option<string>, entries: seq<(Field, Regex)>,
                 raw: string, domain: string, rec: WhoisRecord)
    requires NoDateFormat(entries) && |entries| > 0 && !Trips(e, entries[0], raw)
    ensures Walk(e, dateFormat, entries, raw, domain, rec)
            == Walk(e, dateFormat, entries[1..], raw, domain, FieldStep(e, dateFormat, entries[0], raw, rec))
  {
  }

  /** The reference accumulation, one field at a time. */
  lemma AccumulateStep(e: Engine, dateFormat: Option<string>, entries: seq<(Field, Regex)>, raw: string, rec: WhoisRecord)
    requires NoDateFormat(entries) && |entries| > 0
    ensures Accumulate(e, dateFormat, entries[1..], raw, FieldStep(e, dateFormat, entries[0], raw, rec))
            == Accumulate(e, dateFormat, entries, raw, rec)
  {
    StatusStep(e, dateFormat, entries, raw, rec);
    NameserversStep(e, dateFormat, entries, raw, rec);
    EventsStep(e, dateFormat, entries, raw, rec);
    RegistrarStep(e, dateFormat, entries, raw, rec);
  }

  lemma StatusStep(e: Engine, dateFormat: Option<string>, entries: seq<(Field, Regex)>, raw: string, rec: WhoisRecord)
    requires |entries| > 0
    ensures Extend(FieldStep(e, dateFormat, entries[0], raw, rec).status, StatusOf(e, entries[1..], raw))
            == Extend(rec.status, StatusOf(e, entries, raw))
  {
    var (key, regex) := entries[0];
    var vs := Group1Values(e.matchAll(regex, raw));
    if key == Status {
      ExtendTwice(rec.status, vs, StatusOf(e, entries[1..], raw));
    } else {
      assert FieldStep(e, dateFormat, entries[0], raw, rec).status == rec.status;
      assert StatusOf(e, entries, raw) == StatusOf(e, entries[1..], raw);
    }
  }

  lemma NameserversStep(e: Engine, dateFormat: Option<string>, entries: seq<(Field, Regex)>, raw: string, rec: WhoisRecord)
    requires |entries| > 0
    ensures Extend(FieldStep(e, dateFormat, entries[0], raw, rec).nameservers, NameserversOf(e, entries[1..], raw))
            == Extend(rec.nameservers, NameserversOf(e, entries, raw))
  {
    var (key, regex) := entries[0];
    var vs := NameserverRecords(Group1Values(e.matchAll(regex, raw)));
    if key == Nameservers {
      ExtendTwice(rec.nameservers, vs, NameserversOf(e, entries[1..], raw));
    } else {
      assert FieldStep(e, dateFormat, entries[0], raw, rec).nameservers == rec.nameservers;
      assert NameserversOf(e, entries, raw) == NameserversOf(e, entries[1..], raw);
    }
  }

  lemma EventsStep(e: Engine, dateFormat: Option<string>, entries: seq<(Field, Regex)>, raw: string, rec: WhoisRecord)
    requires NoDateFormat(entries) && |entries| > 0
    ensures Extend(FieldStep(e, dateFormat, entries[0], raw, rec).events, EventsOf(e, dateFormat, entries[1..], raw))
            == Extend(rec.events, EventsOf(e, dateFormat, entries, raw))
  {
    var (key, regex) := entries[0];
    var m := e.exec(regex, raw);
    if IsDateField(key) && m.Some? {
      var ev := Event(EventAction(key), EventDate(e, LastGroup(m.value), dateFormat));
      ExtendTwice(rec.events, [ev], EventsOf(e, dateFormat, entries[1..], raw));
    } else {
      assert FieldStep(e, dateFormat, entries[0], raw, rec).events == rec.events;
      assert EventsOf(e, dateFormat, entries, raw) == EventsOf(e, dateFormat, entries[1..], raw);
    }
  }

  lemma RegistrarStep(e: Engine, dateFormat: Option<string>, entries: seq<(Field, Regex)>, raw: string, rec: WhoisRecord)
    requires NoDateFormat(entries) && |entries| > 0
    ensures var next := FieldStep(e, dateFormat, entries[0], raw, rec);
            var later := RegistrarOf(e, entries[1..], raw);
            var all := RegistrarOf(e, entries, raw);
            (if later.Some? then later.value else next.registrar) == (if all.Some? then all.value else rec.registrar)
  {
  }

  // ---------------------------------------------------------------------------
  // Consequences for parseRawData
  // ---------------------------------------------------------------------------

  /** A successful parse holds only the fixed fields and what the grammar's own
      patterns extracted; a failed parse past the input checks names the first
      terminal field that matched. */
  lemma ParseRawDataOutcome(e: Engine, raw: string, domain: string)
    requires Utf16Length(raw) > 10 && RulesForDomain(domain).Some?
    ensures var rules := RulesForDomain(domain).value;
            ParseRawData(e, Some(raw), domain)
            == if exists i :: 0 <= i < |rules.regexes| && Trips(e, rules.regexes[i], raw)
               then Failure(TerminalError(rules.regexes[FirstTrip(e, rules.regexes, raw)].0, domain))
               else Success(Accumulate(e, rules.dateFormat, rules.regexes, raw, Skeleton(domain)))
  {
    var rules := RulesForDomain(domain).value;
    if exists i :: 0 <= i < |rules.regexes| && Trips(e, rules.regexes[i], raw) {
      var i := FirstTrip(e, rules.regexes, raw);
      WalkFailure(e, rules.dateFormat, rules.regexes, raw, domain, Skeleton(domain), i);
    } else {
      WalkSuccess(e, rules.dateFormat, rules.regexes, raw, domain, Skeleton(domain));
    }
  }

  /** The position of the first terminal field that matches. */
  function FirstTrip(e: Engine, entries: seq<(Field, Regex)>, raw: string): (i: nat)
    requires exists i :: 0 <= i < |entries| && Trips(e, entries[i], raw)
    ensures i < |entries| && Trips(e, entries[i], raw)
    ensures forall j :: 0 <= j < i ==> !Trips(e, entries[j], raw)
  {
    if Trips(e, entries[0], raw) then 0
    else
      var rest := entries[1..];
      assert exists i :: 0 <= i < |rest| && Trips(e, rest[i], raw) by {
        var k :| 0 <= k < |entries| && Trips(e, entries[k], raw);
        assert rest[k - 1] == entries[k];
      }
      1 + FirstTrip(e, rest, raw)
  }

  /** Fields the grammar does not declare stay unset. */
  lemma {:induction false} UndeclaredFieldsEmpty(e: Engine, dateFormat: Option<string>, entries: seq<(Field, Regex)>,
                                                 raw: string)
    ensures Status !in EntryFields(entries) ==> StatusOf(e, entries, raw) == []
    ensures Nameservers !in EntryFields(entries) ==> NameserversOf(e, entries, raw) == []
    ensures (CreationDate !in EntryFields(entries) && UpdatedDate !in EntryFields(entries)
             && ExpirationDate !in EntryFields(entries)) ==> EventsOf(e, dateFormat, entries, raw) == []
  {
    if |entries| > 0 {
      var rest := entries[1..];
      assert EntryFields(rest) == EntryFields(entries)[1..];
      assert forall j :: 0 <= j < |rest| ==> rest[j] == entries[j + 1];
      UndeclaredFieldsEmpty(e, dateFormat, rest, raw);
      assert entries[0].0 == EntryFields(entries)[0];
    }
  }

  /** A successful parse lists statuses, name servers or events only when the
      domain's grammar declares a field of that kind. */
  lemma ListsOnlyFromDeclaredFields(e: Engine, raw: string, domain: string)
    requires Utf16Length(raw) > 10 && RulesForDomain(domain).Some?
    ensures var r := ParseRawData(e, Some(raw), domain);
            var rs := RulesForDomain(domain).value.regexes;
            && (r.Success? && r.value.status.Some? ==> Status in EntryFields(rs))
            && (r.Success? && r.value.nameservers.Some? ==> Nameservers in EntryFields(rs))
            && (r.Success? && r.value.events.Some? ==>
                  CreationDate in EntryFields(rs) || UpdatedDate in EntryFields(rs) || ExpirationDate in EntryFields(rs))
  {
    var rules := RulesForDomain(domain).value;
    ParseRawDataOutcome(e, raw, domain);
    UndeclaredFieldsEmpty(e, rules.dateFormat, rules.regexes, raw);
  }

  /** The record with its domain-specific parts blanked: the handle, and the domain
      an error names. */
  function Anonymous(r: Result<WhoisRecord, ParseError>): Result<WhoisRecord, ParseError> {
    match r
    case Success(rec) => Success(rec.(ldhName := ""))
    case Failure(err) =>
      if err.NotRegistered? then Failure(NotRegistered(""))
      else if err.Unsupported? then Failure(Unsupported(""))
      else r
  }

  /** One grammar walked over the same text for two domains gives the same outcome,
      up to the domain name itself. */
  lemma WalkAnonymous(e: Engine, rules: Rules, text: string, d1: string, d2: string)
    ensures Anonymous(Walk(e, rules.dateFormat, rules.regexes, text, d1, Skeleton(d1)))
         == Anonymous(Walk(e, rules.dateFormat, rules.regexes, text, d2, Skeleton(d2)))
  {
    if exists i :: 0 <= i < |rules.regexes| && Trips(e, rules.regexes[i], text) {
      var i := FirstTrip(e, rules.regexes, text);
      WalkFailure(e, rules.dateFormat, rules.regexes, text, d1, Skeleton(d1), i);
      WalkFailure(e, rules.dateFormat, rules.regexes, text, d2, Skeleton(d2), i);
      var f := rules.regexes[i].0;
      assert Anonymous(Failure(TerminalError(f, d1))) == Anonymous(Failure(TerminalError(f, d2)));
    } else {
      WalkSuccess(e, rules.dateFormat, rules.regexes, text, d1, Skeleton(d1));
      WalkSuccess(e, rules.dateFormat, rules.regexes, text, d2, Skeleton(d2));
      assert Skeleton(d1).(ldhName := "") == Skeleton(d2).(ldhName := "");
      assert Accumulate(e, rules.dateFormat, rules.regexes, text, Skeleton(d1)).(ldhName := "")
          == Accumulate(e, rules.dateFormat, rules.regexes, text, Skeleton(d2)).(ldhName := "");
    }
  }

  /** Two domains with the same rules parse the same text alike, up to the domain
      name itself. */
  lemma SameRulesSameParse(e: Engine, raw: Option<string>, d1: string, d2: string)
    requires RulesForDomain(d1) == RulesForDomain(d2)
    ensures Anonymous(ParseRawData(e, raw, d1)) == Anonymous(ParseRawData(e, raw, d2))
  {
    if raw.Some? && Utf16Length(raw.value) > 10 && RulesForDomain(d1).Some? {
      WalkAnonymous(e, RulesForDomain(d1).value, raw.value, d1, d2);
    }
  }

  /** A domain under an alias TLD (`.net`, `.biz`, ...) parses exactly like one
      under its source TLD, up to the domain name itself. */
  lemma AliasParsesLikeSource(e: Engine, raw: Option<string>, i: nat, aliasDomain: string, sourceDomain: string)
    requires i < |SupplementalTlds|
    requires GetTld(aliasDomain).Some? && GetTld(aliasDomain).value in SupplementalTlds[i].1
    requires GetTld(sourceDomain) == Some(SupplementalTlds[i].0)
    ensures RulesForDomain(aliasDomain).Some?
    ensures Anonymous(ParseRawData(e, raw, aliasDomain)) == Anonymous(ParseRawData(e, raw, sourceDomain))
  {
    RulesForAlias(i, GetTld(aliasDomain).value);
    SameRulesSameParse(e, raw, aliasDomain, sourceDomain);
  }

  // ---------------------------------------------------------------------------
  // Particular grammars
  // ---------------------------------------------------------------------------

  /** Every generic TLD is bound to its own grammar, compiled. */
  lemma GenericRules(i: nat)
    requires i < |GenericTlds|
    ensures RulesFor(GenericTlds[i].0) == Some(Compile(GenericTlds[i].1))
  {
    GenericNotCountry(i);
    TablesHaveUniqueKeys();
    TldPatternsMerge(GenericTlds[i].0);
    GetAt(GenericTlds, i);
    GetSomeIffHasKey(GenericTlds, GenericTlds[i].0);
    RulesForGrammarTld(GenericTlds[i].0);
  }

  /** Every country TLD is bound to its own grammar, compiled. */
  lemma CountryRules(i: nat)
    requires i < |CountryTlds|
    ensures RulesFor(CountryTlds[i].0) == Some(Compile(CountryTlds[i].1))
  {
    TablesHaveUniqueKeys();
    TldPatternsMerge(CountryTlds[i].0);
    GetAt(CountryTlds, i);
    GetSomeIffHasKey(CountryTlds, CountryTlds[i].0);
    RulesForGrammarTld(CountryTlds[i].0);
  }

  /** The fields of compiled entries, in order. */
  function EntryFields(rs: seq<(Field, Regex)>): (fs: seq<Field>)
    ensures |fs| == |rs| && forall i :: 0 <= i < |rs| ==> fs[i] == rs[i].0
  {
    seq(|rs|, i requires 0 <= i < |rs| => rs[i].0)
  }

  /** A grammar's fields without `dateFormat`. */
  function PatternFields(fs: seq<Field>): seq<Field> {
    if |fs| == 0 then [] else (if fs[0] == DateFormat then [] else [fs[0]]) + PatternFields(fs[1..])
  }

  /** Compilation keeps the pattern fields in grammar key order. */
  lemma {:induction false} CompileFields(g: Grammar)
    ensures EntryFields(CompileEntries(g)) == PatternFields(FieldsOf(g))
  {
    if |g| > 0 {
      CompileFields(g[1..]);
      assert FieldsOf(g)[1..] == FieldsOf(g[1..]);
      var head := if g[0].0 == DateFormat then [] else [(g[0].0, Regex(g[0].1, MultiMatch(g[0].0)))];
      assert CompileEntries(g) == head + CompileEntries(g[1..]);
      EntryFieldsAppend(head, CompileEntries(g[1..]));
    }
  }

  lemma EntryFieldsAppend(a: seq<(Field, Regex)>, b: seq<(Field, Regex)>)
    ensures EntryFields(a + b) == EntryFields(a) + EntryFields(b)
  {
    assert forall i :: 0 <= i < |a + b| ==> EntryFields(a + b)[i] == (EntryFields(a) + EntryFields(b))[i];
  }

  lemma {:induction false} PatternFieldsAppend(a: seq<Field>, b: seq<Field>)
    ensures PatternFields(a + b) == PatternFields(a) + PatternFields(b)
  {
    if |a| == 0 {
      assert a + b == b;
    } else {
      var c := a + b;
      assert c[0] == a[0] && c[1..] == a[1..] + b;
      PatternFieldsAppend(a[1..], b);
      assert PatternFields(c) == (if a[0] == DateFormat then [] else [a[0]]) + PatternFields(a[1..] + b);
    }
  }

  lemma {:induction false} PatternFieldsKeep(fs: seq<Field>)
    requires DateFormat !in fs
    ensures PatternFields(fs) == fs
  {
    if |fs| > 0 {
      PatternFieldsKeep(fs[1..]);
    }
  }

  /** Dropping the one `dateFormat` declaration between two runs of pattern fields. */
  lemma PatternFieldsDrop(a: seq<Field>, b: seq<Field>)
    requires DateFormat !in a && DateFormat !in b
    ensures PatternFields(a + [DateFormat] + b) == a + b
  {
    var ad := a + [DateFormat];
    PatternFieldsAppend(ad, b);
    PatternFieldsAppend(a, [DateFormat]);
    PatternFieldsFormat();
    PatternFieldsKeep(a);
    PatternFieldsKeep(b);
    assert PatternFields(ad) == a;
  }

  lemma PatternFieldsFormat()
    ensures PatternFields([DateFormat]) == []
  {
    assert [DateFormat][1..] == [];
  }

  /** A grammar without a date format compiles to all of its fields, in order. */
  lemma CompiledWithoutFormat(g: Grammar)
    requires DateFormat !in FieldsOf(g)
    ensures EntryFields(Compile(g).regexes) == FieldsOf(g)
  {
    CompileFields(g);
    PatternFieldsKeep(FieldsOf(g));
  }

  /** A grammar with a date format compiles to the fields around it, in order. */
  lemma CompiledDroppingFormat(g: Grammar, before: seq<Field>, after: seq<Field>)
    requires DateFormat !in before && DateFormat !in after
    requires FieldsOf(g) == before + [DateFormat] + after
    ensures EntryFields(Compile(g).regexes) == before + after
  {
    CompileFields(g);
    PatternFieldsDrop(before, after);
  }

  /** A domain under a generic TLD without a date format is parsed with that TLD's
      fields, in key order. */
  lemma GenericDomainFields(domain: string, i: nat, tld: string, g: Grammar)
    requires i < |GenericTlds| && GenericTlds[i] == (tld, g) && GetTld(domain) == Some(tld)
    requires DateFormat !in FieldsOf(g)
    ensures RulesForDomain(domain).Some?
    ensures EntryFields(RulesForDomain(domain).value.regexes) == FieldsOf(g)
  {
    GenericRules(i);
    CompiledWithoutFormat(g);
  }

  /** A domain under a country TLD without a date format is parsed with that TLD's
      fields, in key order. */
  lemma CountryDomainFields(domain: string, i: nat, tld: string, g: Grammar)
    requires i < |CountryTlds| && CountryTlds[i] == (tld, g) && GetTld(domain) == Some(tld)
    requires DateFormat !in FieldsOf(g)
    ensures RulesForDomain(domain).Some?
    ensures EntryFields(RulesForDomain(domain).value.regexes) == FieldsOf(g)
  {
    CountryRules(i);
    CompiledWithoutFormat(g);
  }

  /** A domain under a country TLD with a date format is parsed with the fields
      around it, in key order, and with that format. */
  lemma CountryDomainFieldsAndFormat(domain: string, i: nat, tld: string, g: Grammar,
                                     before: seq<Field>, after: seq<Field>, format: string)
    requires i < |CountryTlds| && CountryTlds[i] == (tld, g) && GetTld(domain) == Some(tld)
    requires DateFormat !in before && DateFormat !in after
    requires FieldsOf(g) == before + [DateFormat] + after
    requires PatternOf(g, DateFormat) == format
    ensures RulesForDomain(domain).Some?
    ensures EntryFields(RulesForDomain(domain).value.regexes) == before + after
    ensures RulesForDomain(domain).value.dateFormat == Some(format)
  {
    CountryRules(i);
    CompiledDroppingFormat(g, before, after);
  }

  /** The actions of a list of events. */
  function Actions(evs: seq<Event>): (acts: seq<string>)
    ensures |acts| == |evs|
  {
    seq(|evs|, i requires 0 <= i < |evs| => evs[i].eventAction)
  }

  /** The action of each date field, in order. */
  function DateActions(fs: seq<Field>): seq<string> {
    if |fs| == 0 then [] else (if IsDateField(fs[0]) then [EventAction(fs[0])] else []) + DateActions(fs[1..])
  }

  /** When every date pattern matches, the events are one per date field, in key order. */
  lemma {:induction false} EventsFollowKeyOrder(e: Engine, dateFormat: Option<string>, entries: seq<(Field, Regex)>, raw: string)
    requires forall j :: 0 <= j < |entries| && IsDateField(entries[j].0) ==> e.exec(entries[j].1, raw).Some?
    ensures Actions(EventsOf(e, dateFormat, entries, raw)) == DateActions(EntryFields(entries))
  {
    if |entries| > 0 {
      var rest := entries[1..];
      var fs := EntryFields(entries);
      assert forall j :: 0 <= j < |rest| ==> rest[j] == entries[j + 1];
      EventsFollowKeyOrder(e, dateFormat, rest, raw);
      assert fs[1..] == EntryFields(rest);
      var head := if IsDateField(fs[0]) then [Event(EventAction(fs[0]), EventDate(e, LastGroup(e.exec(entries[0].1, raw).value), dateFormat))] else [];
      assert EventsOf(e, dateFormat, entries, raw) == head + EventsOf(e, dateFormat, rest, raw);
      ActionsAppend(head, EventsOf(e, dateFormat, rest, raw));
      assert Actions(head) == if IsDateField(fs[0]) then [EventAction(fs[0])] else [];
    }
  }

  lemma ActionsAppend(a: seq<Event>, b: seq<Event>)
    ensures Actions(a + b) == Actions(a) + Actions(b)
  {
    assert forall i :: 0 <= i < |a + b| ==> Actions(a + b)[i] == (Actions(a) + Actions(b))[i];
  }

  // ---------------------------------------------------------------------------
  // Conditions on the text, against the rules of the domain's TLD
  // ---------------------------------------------------------------------------

  /** The domain's pattern for `f` matches the text. */
  predicate PatternMatches(e: Engine, raw: string, domain: string, f: Field) {
    var rules := RulesForDomain(domain);
    && rules.Some?
    && exists j :: 0 <= j < |rules.value.regexes| && rules.value.regexes[j].0 == f && Test(e, rules.value.regexes[j].1, raw)
  }

  /** The domain has rules and none of its terminal patterns matches the text. */
  predicate NoTerminalMatch(e: Engine, raw: string, domain: string) {
    var rules := RulesForDomain(domain);
    && rules.Some?
    && forall j :: 0 <= j < |rules.value.regexes| ==> !Trips(e, rules.value.regexes[j], raw)
  }

  /** The domain has rules and every one of its date patterns matches the text. */
  predicate AllDatesMatch(e: Engine, raw: string, domain: string) {
    var rules := RulesForDomain(domain);
    && rules.Some?
    && forall j :: 0 <= j < |rules.value.regexes| && IsDateField(rules.value.regexes[j].0) ==>
         Test(e, rules.value.regexes[j].1, raw)
  }

  /** Text with no terminal match and every date pattern matching parses, with one
      event per date field of the grammar, in key order. */
  lemma ParsedEventOrder(e: Engine, raw: string, domain: string)
    requires Utf16Length(raw) > 10 && NoTerminalMatch(e, raw, domain) && AllDatesMatch(e, raw, domain)
    ensures var r := ParseRawData(e, Some(raw), domain);
            r.Success? && Actions(r.value.events.GetOr([])) == DateActions(EntryFields(RulesForDomain(domain).value.regexes))
  {
    var rules := RulesForDomain(domain).value;
    ParseSucceeds(e, raw, domain);
    SkeletonEvents(e, rules.dateFormat, rules.regexes, raw, domain);
    EventsFollowKeyOrder(e, rules.dateFormat, rules.regexes, raw);
  }

  /** Without a terminal match the parse is the accumulation over the skeleton. */
  lemma ParseSucceeds(e: Engine, raw: string, domain: string)
    requires Utf16Length(raw) > 10 && NoTerminalMatch(e, raw, domain)
    ensures var rules := RulesForDomain(domain).value;
            ParseRawData(e, Some(raw), domain) == Success(Accumulate(e, rules.dateFormat, rules.regexes, raw, Skeleton(domain)))
  {
    var rules := RulesForDomain(domain).value;
    WalkSuccess(e, rules.dateFormat, rules.regexes, raw, domain, Skeleton(domain));
  }

  /** The skeleton has no events, so the accumulated events are the patterns' own. */
  lemma SkeletonEvents(e: Engine, dateFormat: Option<string>, entries: seq<(Field, Regex)>, raw: string, domain: string)
    ensures Accumulate(e, dateFormat, entries, raw, Skeleton(domain)).events.GetOr([]) == EventsOf(e, dateFormat, entries, raw)
  {
  }

  /** A matching terminal field with no terminal field before it decides the parse. */
  lemma FirstTerminalDecides(e: Engine, raw: string, domain: string, k: nat)
    requires Utf16Length(raw) > 10 && RulesForDomain(domain).Some?
    requires var rs := RulesForDomain(domain).value.regexes;
             && k < |rs| && Trips(e, rs[k], raw)
             && forall j :: 0 <= j < k ==> rs[j].0 != RateLimited && rs[j].0 != NotFound
    ensures ParseRawData(e, Some(raw), domain)
            == Failure(TerminalError(RulesForDomain(domain).value.regexes[k].0, domain))
  {
    var rules := RulesForDomain(domain).value;
    WalkFailure(e, rules.dateFormat, rules.regexes, raw, domain, Skeleton(domain), k);
  }

  /** `f` is listed once in `fs`, at `k`, with no terminal field before it. */
  predicate FirstTerminalAt(fs: seq<Field>, f: Field, k: nat) {
    && k < |fs| && fs[k] == f
    && (forall j :: 0 <= j < |fs| && fs[j] == f ==> j == k)
    && (forall j :: 0 <= j < k ==> fs[j] != RateLimited && fs[j] != NotFound)
  }

  /** Terminal precedence: when the text matches the pattern of a terminal field that
      appears once, with no terminal field before it, that field's error is the result. */
  lemma TerminalFirst(e: Engine, raw: string, domain: string, f: Field, k: nat)
    requires Utf16Length(raw) > 10 && RulesForDomain(domain).Some?
    requires f == RateLimited || f == NotFound
    requires FirstTerminalAt(EntryFields(RulesForDomain(domain).value.regexes), f, k)
    requires PatternMatches(e, raw, domain, f)
    ensures ParseRawData(e, Some(raw), domain) == Failure(TerminalError(f, domain))
  {
    var rs := RulesForDomain(domain).value.regexes;
    var fs := EntryFields(rs);
    var j :| 0 <= j < |rs| && rs[j].0 == f && Test(e, rs[j].1, raw);
    assert fs[j] == f;
    assert j == k;
    assert Trips(e, rs[k], raw);
    forall i | 0 <= i < k
      ensures rs[i].0 != RateLimited && rs[i].0 != NotFound
    {
      assert fs[i] == rs[i].0;
    }
    FirstTerminalDecides(e, raw, domain, k);
  }

  // ---------------------------------------------------------------------------
  // Particular TLDs
  // ---------------------------------------------------------------------------

  lemma ComRules(domain: string)
    requires GetTld(domain) == Some(".com")
    ensures RulesForDomain(domain).Some?
    ensures EntryFields(RulesForDomain(domain).value.regexes)
            == [Registrar, UpdatedDate, CreationDate, ExpirationDate, Status, NotFound]
  {
    assert FieldsOf(ComGrammar) == [Registrar, UpdatedDate, CreationDate, ExpirationDate, Status, NotFound];
    GenericDomainFields(domain, 0, ".com", ComGrammar);
  }

  lemma ComDateActions()
    ensures DateActions([Registrar, UpdatedDate, CreationDate, ExpirationDate, Status, NotFound])
            == ["last changed", "registration", "expiration"]
  {
  }

  /** .com text with no terminal match and every date pattern matching yields the
      events last changed, registration, expiration, in that order. */
  lemma ComEventOrder(e: Engine, raw: string, domain: string)
    requires Utf16Length(raw) > 10 && GetTld(domain) == Some(".com")
    requires NoTerminalMatch(e, raw, domain) && AllDatesMatch(e, raw, domain)
    ensures var r := ParseRawData(e, Some(raw), domain);
            r.Success? && Actions(r.value.events.GetOr([])) == ["last changed", "registration", "expiration"]
  {
    ComRules(domain);
    ComDateActions();
    ParsedEventOrder(e, raw, domain);
  }

  lemma UsGrammarShape()
    ensures FieldsOf(UsGrammar) == [Registrar, Status, CreationDate, ExpirationDate, UpdatedDate, NotFound, Nameservers] + [DateFormat] + []
    ensures PatternOf(UsGrammar, DateFormat) == "YYYY-MM-DDThh:mm:ssZ"
  {
    assert FieldsOf(UsGrammar) == [Registrar, Status, CreationDate, ExpirationDate, UpdatedDate, NotFound, Nameservers] + [DateFormat] + [];
  }

  lemma UsRules(domain: string)
    requires GetTld(domain) == Some(".us")
    ensures RulesForDomain(domain).Some?
    ensures EntryFields(RulesForDomain(domain).value.regexes)
            == [Registrar, Status, CreationDate, ExpirationDate, UpdatedDate, NotFound, Nameservers]
    ensures RulesForDomain(domain).value.dateFormat == Some("YYYY-MM-DDThh:mm:ssZ")
  {
    UsGrammarShape();
    CountryDomainFieldsAndFormat(domain, 1, ".us", UsGrammar, [Registrar, Status, CreationDate, ExpirationDate, UpdatedDate, NotFound, Nameservers], [], "YYYY-MM-DDThh:mm:ssZ");
  }

  lemma UsDateActions()
    ensures DateActions([Registrar, Status, CreationDate, ExpirationDate, UpdatedDate, NotFound, Nameservers])
            == ["registration", "expiration", "last changed"]
  {
  }

  /** Every event date is the date library's reading of some value under the rules'
      format (free-form when there is none). */
  lemma {:induction false} EventDatesUseFormat(e: Engine, dateFormat: Option<string>, entries: seq<(Field, Regex)>,
                                               raw: string)
    ensures forall ev :: ev in EventsOf(e, dateFormat, entries, raw) ==>
              exists v :: ev.eventDate == EventDate(e, v, dateFormat)
  {
    if |entries| > 0 {
      EventDatesUseFormat(e, dateFormat, entries[1..], raw);
    }
  }

  /** A successful parse has exactly one event per matching date pattern, in pattern
      order, each the pattern's last captured group read with the rules' date format. */
  lemma ParsedEventDates(e: Engine, raw: string, domain: string)
    requires Utf16Length(raw) > 10 && NoTerminalMatch(e, raw, domain)
    ensures var r := ParseRawData(e, Some(raw), domain);
            var rules := RulesForDomain(domain).value;
            && r.Success?
            && r.value.events.GetOr([]) == EventsOf(e, rules.dateFormat, rules.regexes, raw)
            && forall ev :: ev in r.value.events.GetOr([]) ==>
                 exists v :: ev.eventDate == EventDate(e, v, rules.dateFormat)
  {
    var rules := RulesForDomain(domain).value;
    ParseSucceeds(e, raw, domain);
    SkeletonEvents(e, rules.dateFormat, rules.regexes, raw, domain);
    EventDatesUseFormat(e, rules.dateFormat, rules.regexes, raw);
  }

  /** .us text with no terminal match and every date pattern matching yields the
      events registration, expiration, last changed, each read with the format
      YYYY-MM-DDThh:mm:ssZ. */
  lemma UsEventOrder(e: Engine, raw: string, domain: string)
    requires Utf16Length(raw) > 10 && GetTld(domain) == Some(".us")
    requires NoTerminalMatch(e, raw, domain) && AllDatesMatch(e, raw, domain)
    ensures var r := ParseRawData(e, Some(raw), domain);
            && r.Success?
            && Actions(r.value.events.GetOr([])) == ["registration", "expiration", "last changed"]
            && forall ev :: ev in r.value.events.GetOr([]) ==>
                 exists v :: ev.eventDate == e.moment(v, Some("YYYY-MM-DDThh:mm:ssZ"))
  {
    UsRules(domain);
    UsDateActions();
    ParsedEventOrder(e, raw, domain);
    ParsedEventDates(e, raw, domain);
  }

  lemma AuRules(domain: string)
    requires GetTld(domain) == Some(".au")
    ensures RulesForDomain(domain).Some?
    ensures EntryFields(RulesForDomain(domain).value.regexes) == [UpdatedDate, Registrar, Status, RateLimited, NotFound]
  {
    assert FieldsOf(AuGrammar) == [UpdatedDate, Registrar, Status, RateLimited, NotFound];
    CountryDomainFields(domain, 0, ".au", AuGrammar);
  }

  lemma AuTerminalOrder()
    ensures FirstTerminalAt([UpdatedDate, Registrar, Status, RateLimited, NotFound], RateLimited, 3)
  {
  }

  lemma PtTerminalOrder()
    ensures FirstTerminalAt([Status, CreationDate, ExpirationDate, Nameservers, NotFound, RateLimited], NotFound, 4)
  {
  }

  lemma BgTerminalOrder()
    ensures FirstTerminalAt([Status, NotFound, RateLimited], NotFound, 1)
  {
  }

  lemma AtTerminalOrder()
    ensures FirstTerminalAt([UpdatedDate, Registrar, NotFound, RateLimited], NotFound, 2)
  {
  }

  /** .au checks rate limiting before not-found: text its rate-limit pattern matches
      fails as rate limited, whether or not the not-found pattern matches too. */
  lemma AuRateLimitFirst(e: Engine, raw: string, domain: string)
    requires Utf16Length(raw) > 10 && GetTld(domain) == Some(".au")
    requires PatternMatches(e, raw, domain, RateLimited)
    ensures ParseRawData(e, Some(raw), domain) == Failure(RateLimitedError)
  {
    AuRules(domain);
    AuTerminalOrder();
    TerminalFirst(e, raw, domain, RateLimited, 3);
  }

  lemma PtGrammarShape()
    ensures FieldsOf(PtGrammar) == [Status, CreationDate, ExpirationDate, Nameservers, NotFound, RateLimited] + [DateFormat] + []
    ensures PatternOf(PtGrammar, DateFormat) == "DD/MM/YYYY hh:mm:ss"
  {
    assert FieldsOf(PtGrammar) == [Status, CreationDate, ExpirationDate, Nameservers, NotFound, RateLimited] + [DateFormat] + [];
  }

  lemma PtRules(domain: string)
    requires GetTld(domain) == Some(".pt")
    ensures RulesForDomain(domain).Some?
    ensures EntryFields(RulesForDomain(domain).value.regexes)
            == [Status, CreationDate, ExpirationDate, Nameservers, NotFound, RateLimited]
    ensures RulesForDomain(domain).value.dateFormat == Some("DD/MM/YYYY hh:mm:ss")
  {
    PtGrammarShape();
    CountryDomainFieldsAndFormat(domain, 3, ".pt", PtGrammar, [Status, CreationDate, ExpirationDate, Nameservers, NotFound, RateLimited], [], "DD/MM/YYYY hh:mm:ss");
  }

  lemma BgRules(domain: string)
    requires GetTld(domain) == Some(".bg")
    ensures RulesForDomain(domain).Some?
    ensures EntryFields(RulesForDomain(domain).value.regexes) == [Status, NotFound, RateLimited]
  {
    assert FieldsOf(BgGrammar) == [Status, NotFound, RateLimited];
    CountryDomainFields(domain, 10, ".bg", BgGrammar);
  }

  lemma AtGrammarShape()
    ensures FieldsOf(AtGrammar) == [UpdatedDate, Registrar, NotFound] + [DateFormat] + [RateLimited]
    ensures PatternOf(AtGrammar, DateFormat) == "YYYYMMDD hh:mm:ss"
  {
    assert FieldsOf(AtGrammar) == [UpdatedDate, Registrar, NotFound] + [DateFormat] + [RateLimited];
  }

  lemma AtRules(domain: string)
    requires GetTld(domain) == Some(".at")
    ensures RulesForDomain(domain).Some?
    ensures EntryFields(RulesForDomain(domain).value.regexes) == [UpdatedDate, Registrar, NotFound, RateLimited]
    ensures RulesForDomain(domain).value.dateFormat == Some("YYYYMMDD hh:mm:ss")
  {
    AtGrammarShape();
    assert CountryTlds[12] == (".at", AtGrammar);
    CountryDomainFieldsAndFormat(domain, 12, ".at", AtGrammar, [UpdatedDate, Registrar, NotFound], [RateLimited], "YYYYMMDD hh:mm:ss");
  }

  /** .pt, .bg and .at check not-found first: text their not-found pattern matches
      fails as not registered, whether or not the rate-limit pattern matches too. */
  lemma NotFoundBeforeRateLimit(e: Engine, raw: string, domain: string)
    requires Utf16Length(raw) > 10 && GetTld(domain) in {Some(".pt"), Some(".bg"), Some(".at")}
    requires PatternMatches(e, raw, domain, NotFound)
    ensures ParseRawData(e, Some(raw), domain) == Failure(NotRegistered(domain))
  {
    if GetTld(domain) == Some(".pt") {
      PtRules(domain);
      PtTerminalOrder();
      TerminalFirst(e, raw, domain, NotFound, 4);
    } else if GetTld(domain) == Some(".bg") {
      BgRules(domain);
      BgTerminalOrder();
      TerminalFirst(e, raw, domain, NotFound, 1);
    } else {
      AtRules(domain);
      AtTerminalOrder();
      TerminalFirst(e, raw, domain, NotFound, 2);
    }
  }

  lemma EuFields()
    ensures var fs := FieldsOf(EuGrammar);
            && fs == [Registrar, NotFound]
            && Status !in fs && Nameservers !in fs && CreationDate !in fs && UpdatedDate !in fs && ExpirationDate !in fs
  {
    assert FieldsOf(EuGrammar) == [Registrar, NotFound];
  }

  lemma EuRules(domain: string)
    requires GetTld(domain) == Some(".eu")
    ensures RulesForDomain(domain).Some?
    ensures var fs := EntryFields(RulesForDomain(domain).value.regexes);
            Status !in fs && Nameservers !in fs && CreationDate !in fs && UpdatedDate !in fs && ExpirationDate !in fs
  {
    EuFields();
    CountryDomainFields(domain, 7, ".eu", EuGrammar);
  }

  /** .eu declares only a registrar and a not-found pattern, so a successful .eu
      parse carries no statuses, name servers or events. */
  lemma EuRecordHasNoLists(e: Engine, raw: string, domain: string)
    requires Utf16Length(raw) > 10 && GetTld(domain) == Some(".eu")
    ensures var r := ParseRawData(e, Some(raw), domain);
            r.Success? ==> r.value.status.None? && r.value.nameservers.None? && r.value.events.None?
  {
    EuRules(domain);
    ListsOnlyFromDeclaredFields(e, raw, domain);
  }
}
