/**
 * The configuration loader: flattening of a two-level TOML table
 * `program -> argmatch -> { rules = [[pattern, replacement], ...] }`
 * into an ordered list of profiles.
 *
 * Every `unwrap` of the loader becomes a `Panic` carrying the reason; the
 * loader never produces an error value of its own, so the result is either
 * `Ok` or `Panic`. Whether a pattern compiles as a regular expression is
 * decided by the regex library and is a parameter here.
 */
module Config {
  import opened Toml
  import opened Wrappers

  /** A rewrite rule: the source text of its pattern and its replacement template. */
  datatype Rule = Rule(pattern: string, replacement: string)

  datatype Profile = Profile(program: string, argmatch: string, rules: seq<Rule>)

  datatype Config = Config(profiles: seq<Profile>)

  /** Why the loader aborts. */
  datatype Fault =
    | NotATable(program: string)
    | NoRules(program: string, argmatch: string)
    | RulesNotArray(program: string, argmatch: string)
    | RuleNotArray
    | MissingElement(index: nat)
    | NotString(index: nat)
    | BadPattern(source: string)

  datatype Result<T> = Ok(value: T) | Panic(fault: Fault)

  /** Whether the regex library accepts a pattern source. */
  type Compiles = string -> bool

  /** A rule entry the loader accepts: an array whose first two elements are
      strings and whose first element compiles. Further elements are ignored. */
  predicate RuleOk(v: Value, compiles: Compiles)
  {
    && v.Array?
    && |v.items| >= 2
    && v.items[0].Str?
    && v.items[1].Str?
    && compiles(v.items[0].text)
  }

  /** An inner value the loader accepts: a table whose `rules` member is an
      array of acceptable rule entries. */
  predicate ProfileOk(v: Value, compiles: Compiles)
  {
    && Member(v, "rules").Some?
    && Member(v, "rules").value.Array?
    && forall j :: 0 <= j < |Member(v, "rules").value.items| ==>
         RuleOk(Member(v, "rules").value.items[j], compiles)
  }

  /** An outer value the loader accepts: a table of acceptable inner values. */
  predicate ProgramOk(v: Value, compiles: Compiles)
  {
    && v.Table?
    && forall j :: 0 <= j < |v.entries| ==> ProfileOk(v.entries[j].1, compiles)
  }

  /** A top-level table on which the loader does not panic. */
  predicate WellFormed(table: seq<(string, Value)>, compiles: Compiles)
  {
    forall i :: 0 <= i < |table| ==> ProgramOk(table[i].1, compiles)
  }

  /** The number of (outer key, inner key) entries of a top-level table. */
  function TotalInner(table: seq<(string, Value)>): nat
  {
    if |table| == 0 then 0 else |Inner(table[0].1)| + TotalInner(table[1..])
  }

  /** Where the profiles of the i-th outer key start in the flattened list. */
  function Offset(table: seq<(string, Value)>, i: nat): nat
    requires i <= |table|
  {
    TotalInner(table[..i])
  }

  /** One rule entry, checked in the order the loader performs its unwraps:
      the array, element 0, its string, its compilation, element 1, its string. */
  function RuleFrom(v: Value, compiles: Compiles): (r: Result<Rule>)
    ensures r.Ok? <==> RuleOk(v, compiles)
    ensures r.Ok? ==> v.items[0] == Str(r.value.pattern) && v.items[1] == Str(r.value.replacement)
  {
    if !v.Array? then Panic(RuleNotArray)
    else if |v.items| == 0 then Panic(MissingElement(0))
    else if !v.items[0].Str? then Panic(NotString(0))
    else if !compiles(v.items[0].text) then Panic(BadPattern(v.items[0].text))
    else if |v.items| < 2 then Panic(MissingElement(1))
    else if !v.items[1].Str? then Panic(NotString(1))
    else Ok(Rule(v.items[0].text, v.items[1].text))
  }

  /** The rules array of one profile, in array order; the first bad entry aborts. */
  function RulesFrom(items: seq<Value>, compiles: Compiles): (r: Result<seq<Rule>>)
    ensures r.Ok? ==> |r.value| == |items|
    ensures r.Ok? ==> forall j :: 0 <= j < |items| ==>
              && RuleOk(items[j], compiles)
              && items[j].items[0] == Str(r.value[j].pattern)
              && items[j].items[1] == Str(r.value[j].replacement)
  {
    if |items| == 0 then Ok([])
    else match RuleFrom(items[0], compiles)
      case Panic(f) => Panic(f)
      case Ok(x) =>
        match RulesFrom(items[1..], compiles)
        case Panic(f) => Panic(f)
        case Ok(xs) => Ok([x] + xs)
  }

  /** The profile for one (outer key, inner key) entry: both keys are copied
      verbatim, the rules come from the entry's `rules` array. */
  function ProfileFrom(program: string, argmatch: string, v: Value, compiles: Compiles): (r: Result<Profile>)
    ensures r.Ok? ==> r.value.program == program && r.value.argmatch == argmatch
    ensures r.Ok? ==> Member(v, "rules").Some? && Member(v, "rules").value.Array?
    ensures r.Ok? ==> Ok(r.value.rules) == RulesFrom(Member(v, "rules").value.items, compiles)
    ensures Member(v, "rules") == Some(Array([])) ==> r == Ok(Profile(program, argmatch, []))
  {
    match Member(v, "rules")
    case None => Panic(NoRules(program, argmatch))
    case Some(rules) =>
      if !rules.Array? then Panic(RulesNotArray(program, argmatch))
      else match RulesFrom(rules.items, compiles)
        case Panic(f) => Panic(f)
        case Ok(rs) => Ok(Profile(program, argmatch, rs))
  }

  /** The profiles of one outer key, in the order of its inner table. */
  function ProgramProfiles(program: string, entries: seq<(string, Value)>, compiles: Compiles): (r: Result<seq<Profile>>)
    ensures r.Ok? ==> |r.value| == |entries|
  {
    if |entries| == 0 then Ok([])
    else match ProfileFrom(program, entries[0].0, entries[0].1, compiles)
      case Panic(f) => Panic(f)
      case Ok(p) =>
        match ProgramProfiles(program, entries[1..], compiles)
        case Panic(f) => Panic(f)
        case Ok(ps) => Ok([p] + ps)
  }

  /** The two nested loops of the loader: outer keys in order, and within
      each outer key its inner keys in order. */
  function Flatten(table: seq<(string, Value)>, compiles: Compiles): (r: Result<seq<Profile>>)
    ensures r.Ok? ==> |r.value| == TotalInner(table)
  {
    if |table| == 0 then Ok([])
    else if !table[0].1.Table? then Panic(NotATable(table[0].0))
    else match ProgramProfiles(table[0].0, table[0].1.entries, compiles)
      case Panic(f) => Panic(f)
      case Ok(ps) =>
        match Flatten(table[1..], compiles)
        case Panic(f) => Panic(f)
        case Ok(qs) => Ok(ps + qs)
  }

  /** `Config::from_toml`. */
  function FromToml(table: seq<(string, Value)>, compiles: Compiles): (r: Result<Config>)
    ensures r.Ok? ==> |r.value.profiles| == TotalInner(table)
    ensures |table| == 0 ==> r == Ok(Config([]))
  {
    match Flatten(table, compiles)
    case Panic(f) => Panic(f)
    case Ok(ps) => Ok(Config(ps))
  }

  /** Removing the first outer key shifts every later start by the size of its table. */
  lemma {:induction false} OffsetStep(table: seq<(string, Value)>, i: nat)
    requires 0 < i <= |table|
    ensures Offset(table, i) == |Inner(table[0].1)| + Offset(table[1..], i - 1)
  {
    assert table[..i][1..] == table[1..][..i - 1];
  }

  /** Provenance for the flattened list itself: entry (i, j) lands at
      Offset(table, i) + j and is the j-th profile of outer key i. */
  lemma {:induction false} FlattenPlacement(table: seq<(string, Value)>, compiles: Compiles, i: nat, j: nat)
    requires Flatten(table, compiles).Ok?
    requires i < |table| && j < |Inner(table[i].1)|
    ensures ProgramProfiles(table[i].0, Inner(table[i].1), compiles).Ok?
    ensures Offset(table, i) + j < |Flatten(table, compiles).value|
    ensures Flatten(table, compiles).value[Offset(table, i) + j]
         == ProgramProfiles(table[i].0, Inner(table[i].1), compiles).value[j]
  {
    FlattenPlaced(table, compiles, i, j);
  }

  /** The conclusion of `FlattenPlacement` as one fact. */
  ghost predicate Placed(table: seq<(string, Value)>, compiles: Compiles, i: nat, j: nat)
    requires Flatten(table, compiles).Ok?
    requires i < |table| && j < |Inner(table[i].1)|
  {
    && ProgramProfiles(table[i].0, Inner(table[i].1), compiles).Ok?
    && Offset(table, i) + j < |Flatten(table, compiles).value|
    && Flatten(table, compiles).value[Offset(table, i) + j]
       == ProgramProfiles(table[i].0, Inner(table[i].1), compiles).value[j]
  }

  /** `Placed` by induction on the outer table. */
  lemma {:induction false} FlattenPlaced(table: seq<(string, Value)>, compiles: Compiles, i: nat, j: nat)
    requires Flatten(table, compiles).Ok?
    requires i < |table| && j < |Inner(table[i].1)|
    ensures Placed(table, compiles, i, j)
  {
    if i == 0 {
      FlattenPlacedFirst(table, compiles, j);
    } else {
      assert Flatten(table[1..], compiles).Ok?;
      assert table[1..][i - 1] == table[i];
      FlattenPlaced(table[1..], compiles, i - 1, j);
      FlattenPlacedRest(table, compiles, i, j);
    }
  }

  /** The base case of `FlattenPlaced`: the first outer key starts at position 0. */
  lemma {:induction false} FlattenPlacedFirst(table: seq<(string, Value)>, compiles: Compiles, j: nat)
    requires Flatten(table, compiles).Ok?
    requires 0 < |table| && j < |Inner(table[0].1)|
    ensures Placed(table, compiles, 0, j)
  {
    assert table[..0] == [];
    FlattenStep(table, compiles);
  }

  /** The inductive step of `FlattenPlaced`: what holds in the flattened
      rest of the table holds, shifted, in the flattened table. */
  lemma {:induction false} FlattenPlacedRest(table: seq<(string, Value)>, compiles: Compiles, i: nat, j: nat)
    requires Flatten(table, compiles).Ok? && 0 < i < |table| && j < |Inner(table[i].1)|
    requires Flatten(table[1..], compiles).Ok?
    requires table[1..][i - 1] == table[i]
    requires Placed(table[1..], compiles, i - 1, j)
    ensures Placed(table, compiles, i, j)
  {
    OffsetStep(table, i);
    FlattenShift(table, compiles, Offset(table[1..], i - 1) + j);
  }

  /** The profile of inner entry j of one outer key is built from that entry alone. */
  lemma {:induction false} ProgramProfilesAt(program: string, entries: seq<(string, Value)>, compiles: Compiles, j: nat)
    requires ProgramProfiles(program, entries, compiles).Ok? && j < |entries|
    ensures Ok(ProgramProfiles(program, entries, compiles).value[j])
         == ProfileFrom(program, entries[j].0, entries[j].1, compiles)
  {
    ProgramProfilesStep(program, entries, compiles);
    if j > 0 {
      assert entries[1..][j - 1] == entries[j];
      ProgramProfilesAt(program, entries[1..], compiles, j - 1);
    }
  }

  /** One step of the inner loop: the first inner entry's profile, then the rest. */
  lemma {:induction false} ProgramProfilesStep(program: string, entries: seq<(string, Value)>, compiles: Compiles)
    requires ProgramProfiles(program, entries, compiles).Ok? && |entries| > 0
    ensures ProfileFrom(program, entries[0].0, entries[0].1, compiles).Ok?
    ensures ProgramProfiles(program, entries[1..], compiles).Ok?
    ensures ProgramProfiles(program, entries, compiles).value
         == [ProfileFrom(program, entries[0].0, entries[0].1, compiles).value]
            + ProgramProfiles(program, entries[1..], compiles).value
  {
  }

  /** The profiles of the later outer keys follow those of the first one. */
  lemma {:induction false} FlattenShift(table: seq<(string, Value)>, compiles: Compiles, k: nat)
    requires Flatten(table, compiles).Ok? && 0 < |table|
    requires Flatten(table[1..], compiles).Ok? && k < |Flatten(table[1..], compiles).value|
    ensures |Inner(table[0].1)| + k < |Flatten(table, compiles).value|
    ensures Flatten(table, compiles).value[|Inner(table[0].1)| + k] == Flatten(table[1..], compiles).value[k]
  {
    FlattenStep(table, compiles);
  }

  /** One step of the outer loop: the first outer key's profiles, then the rest. */
  lemma {:induction false} FlattenStep(table: seq<(string, Value)>, compiles: Compiles)
    requires Flatten(table, compiles).Ok? && |table| > 0
    ensures table[0].1.Table?
    ensures ProgramProfiles(table[0].0, table[0].1.entries, compiles).Ok?
    ensures Flatten(table[1..], compiles).Ok?
    ensures Flatten(table, compiles).value
         == ProgramProfiles(table[0].0, table[0].1.entries, compiles).value + Flatten(table[1..], compiles).value
  {
  }

  /** The profile of inner entry j of outer entry i sits at position
      Offset(table, i) + j, carries both keys verbatim, and is built from
      that entry's value. */
  lemma {:induction false} FlattenProvenance(table: seq<(string, Value)>, compiles: Compiles, i: nat, j: nat)
    requires FromToml(table, compiles).Ok?
    requires i < |table| && j < |Inner(table[i].1)|
    ensures Offset(table, i) + j < |FromToml(table, compiles).value.profiles|
    ensures var p := FromToml(table, compiles).value.profiles[Offset(table, i) + j];
            && p.program == table[i].0
            && p.argmatch == Inner(table[i].1)[j].0
            && Ok(p) == ProfileFrom(table[i].0, Inner(table[i].1)[j].0, Inner(table[i].1)[j].1, compiles)
  {
    FlattenPlacement(table, compiles, i, j);
    ProgramProfilesAt(table[i].0, Inner(table[i].1), compiles, j);
  }

  /** The profiles of an earlier outer key all come before those of a later one. */
  lemma {:induction false} OffsetOrder(table: seq<(string, Value)>, i: nat, k: nat, j: nat)
    requires i < k <= |table| && j < |Inner(table[i].1)|
    ensures Offset(table, i) + j < Offset(table, k)
  {
    if i == 0 {
      assert table[..0] == [];
      OffsetStep(table, k);
    } else {
      OffsetStep(table, i);
      OffsetStep(table, k);
      assert table[1..][i - 1] == table[i];
      OffsetOrder(table[1..], i - 1, k - 1, j);
    }
  }
  /** A rules array loads exactly when every one of its entries is acceptable. */
  lemma {:induction false} RulesFromOk(items: seq<Value>, compiles: Compiles)
    ensures RulesFrom(items, compiles).Ok? <==> forall j :: 0 <= j < |items| ==> RuleOk(items[j], compiles)
  {
    if |items| > 0 {
      RulesFromOk(items[1..], compiles);
      assert forall j :: 1 <= j < |items| ==> items[j] == items[1..][j - 1];
    }
  }

  /** One inner entry loads exactly when it is acceptable. */
  lemma {:induction false} ProfileFromOk(program: string, argmatch: string, v: Value, compiles: Compiles)
    ensures ProfileFrom(program, argmatch, v, compiles).Ok? <==> ProfileOk(v, compiles)
  {
    if Member(v, "rules").Some? && Member(v, "rules").value.Array? {
      RulesFromOk(Member(v, "rules").value.items, compiles);
    }
  }

  /** One outer key's inner table loads exactly when all its entries are acceptable. */
  lemma {:induction false} ProgramProfilesOk(program: string, entries: seq<(string, Value)>, compiles: Compiles)
    ensures ProgramProfiles(program, entries, compiles).Ok?
        <==> forall j :: 0 <= j < |entries| ==> ProfileOk(entries[j].1, compiles)
  {
    if |entries| > 0 {
      ProfileFromOk(program, entries[0].0, entries[0].1, compiles);
      ProgramProfilesOk(program, entries[1..], compiles);
      assert forall j :: 1 <= j < |entries| ==> entries[j] == entries[1..][j - 1];
    }
  }

  /** The loader returns `Ok` exactly on well-formed tables, and panics on every other one. */
  lemma {:induction false} FromTomlOk(table: seq<(string, Value)>, compiles: Compiles)
    ensures FromToml(table, compiles).Ok? <==> WellFormed(table, compiles)
  {
    FlattenOk(table, compiles);
  }

  lemma {:induction false} FlattenOk(table: seq<(string, Value)>, compiles: Compiles)
    ensures Flatten(table, compiles).Ok? <==> WellFormed(table, compiles)
  {
    if |table| > 0 {
      FlattenOk(table[1..], compiles);
      assert forall i :: 1 <= i < |table| ==> table[i] == table[1..][i - 1];
      if table[0].1.Table? {
        ProgramProfilesOk(table[0].0, table[0].1.entries, compiles);
      }
    }
  }
  /** The table of the loader's unit test, as parsed: one profile for
      gh-copilot and two for kubectl, in that order. */
  function SampleTable(): seq<(string, Value)>
  {
    [ ("gh-copilot", Table([("*", Table([("rules", Array([
          Array([Str("Welcome.*\n"), Str("")]),
          Array([Str("version.*\n"), Str("")]),
          Array([Str("I'm powered.*\n"), Str("")]),
          Array([Str("\n\n"), Str("\n")])]))]))])),
      ("kubectl", Table([
          (" ", Table([("rules", Array([Array([Str("Find more.*\n"), Str("")])]))])),
          ("version", Table([("rules", Array([Array([Str("\n\n"), Str("\n")])]))]))])) ]
  }

  /** The loader turns the unit test's table into the three expected profiles. */
  lemma {:induction false} SampleLoads(compiles: Compiles)
    requires compiles("Welcome.*\n") && compiles("version.*\n") && compiles("I'm powered.*\n")
    requires compiles("\n\n") && compiles("Find more.*\n")
    ensures FromToml(SampleTable(), compiles) == Ok(Config([
              Profile("gh-copilot", "*", [
                Rule("Welcome.*\n", ""), Rule("version.*\n", ""),
                Rule("I'm powered.*\n", ""), Rule("\n\n", "\n")]),
              Profile("kubectl", " ", [Rule("Find more.*\n", "")]),
              Profile("kubectl", "version", [Rule("\n\n", "\n")])]))
  {
    var ghRules := [
      Array([Str("Welcome.*\n"), Str("")]),
      Array([Str("version.*\n"), Str("")]),
      Array([Str("I'm powered.*\n"), Str("")]),
      Array([Str("\n\n"), Str("\n")])];
    var ghExpected := [
      Rule("Welcome.*\n", ""), Rule("version.*\n", ""),
      Rule("I'm powered.*\n", ""), Rule("\n\n", "\n")];
    var findRules := [Array([Str("Find more.*\n"), Str("")])];
    var findExpected := [Rule("Find more.*\n", "")];
    var blankRules := [Array([Str("\n\n"), Str("\n")])];
    var blankExpected := [Rule("\n\n", "\n")];
    SampleRules(ghRules, ghExpected, compiles);
    SampleRules(findRules, findExpected, compiles);
    SampleRules(blankRules, blankExpected, compiles);
    var gh := Profile("gh-copilot", "*", ghExpected);
    var find := Profile("kubectl", " ", findExpected);
    var blank := Profile("kubectl", "version", blankExpected);
    SingleProfile("gh-copilot", "*", ghRules, ghExpected, compiles);
    SampleKubectl(findRules, findExpected, blankRules, blankExpected, compiles);
    assert SampleTable()[1..] == [("kubectl", Table([
      (" ", Table([("rules", Array(findRules))])),
      ("version", Table([("rules", Array(blankRules))]))]))];
    FlattenCons(SampleTable(), [gh], [find, blank], [gh, find, blank], compiles);
  }

  /** The kubectl part of the unit test's table: two inner keys, in order. */
  lemma {:induction false} SampleKubectl(findRules: seq<Value>, findExpected: seq<Rule>,
                                         blankRules: seq<Value>, blankExpected: seq<Rule>, compiles: Compiles)
    requires RulesFrom(findRules, compiles) == Ok(findExpected)
    requires RulesFrom(blankRules, compiles) == Ok(blankExpected)
    ensures Flatten([("kubectl", Table([
              (" ", Table([("rules", Array(findRules))])),
              ("version", Table([("rules", Array(blankRules))]))]))], compiles)
         == Ok([Profile("kubectl", " ", findExpected), Profile("kubectl", "version", blankExpected)])
  {
    var find := Profile("kubectl", " ", findExpected);
    var blank := Profile("kubectl", "version", blankExpected);
    var findEntry := (" ", Table([("rules", Array(findRules))]));
    var blankEntry := ("version", Table([("rules", Array(blankRules))]));
    SampleProfile("kubectl", " ", findRules, findExpected, compiles);
    SingleProfile("kubectl", "version", blankRules, blankExpected, compiles);
    assert [findEntry, blankEntry][1..] == [blankEntry] && [find, blank][1..] == [blank];
    ProgramProfilesCons("kubectl", [findEntry, blankEntry], [find, blank], compiles);
    var kubectl := [("kubectl", Table([findEntry, blankEntry]))];
    FlattenCons(kubectl, [find, blank], [], [find, blank], compiles);
  }

  /** An inner table with a single loadable entry loads as a single profile. */
  lemma {:induction false} SingleProfile(program: string, argmatch: string, items: seq<Value>,
                                         expected: seq<Rule>, compiles: Compiles)
    requires RulesFrom(items, compiles) == Ok(expected)
    ensures ProgramProfiles(program, [(argmatch, Table([("rules", Array(items))]))], compiles)
         == Ok([Profile(program, argmatch, expected)])
  {
    var entry := (argmatch, Table([("rules", Array(items))]));
    var p := Profile(program, argmatch, expected);
    SampleProfile(program, argmatch, items, expected, compiles);
    assert [entry][1..] == [] && [p][1..] == [];
    ProgramProfilesCons(program, [entry], [p], compiles);
  }

  /** One more inner entry in front adds its profile in front. */
  lemma {:induction false} ProgramProfilesCons(program: string, entries: seq<(string, Value)>,
                                               ps: seq<Profile>, compiles: Compiles)
    requires 0 < |entries| && 0 < |ps|
    requires ProfileFrom(program, entries[0].0, entries[0].1, compiles) == Ok(ps[0])
    requires ProgramProfiles(program, entries[1..], compiles) == Ok(ps[1..])
    ensures ProgramProfiles(program, entries, compiles) == Ok(ps)
  {
    assert [ps[0]] + ps[1..] == ps;
  }

  /** One more outer key in front adds its profiles in front. */
  lemma {:induction false} FlattenCons(table: seq<(string, Value)>, ps: seq<Profile>, qs: seq<Profile>,
                                       expected: seq<Profile>, compiles: Compiles)
    requires 0 < |table| && table[0].1.Table?
    requires ProgramProfiles(table[0].0, table[0].1.entries, compiles) == Ok(ps)
    requires Flatten(table[1..], compiles) == Ok(qs)
    requires expected == ps + qs
    ensures Flatten(table, compiles) == Ok(expected)
  {
  }

  /** An inner table holding only a loadable rules array loads as one profile. */
  lemma {:induction false} SampleProfile(program: string, argmatch: string, items: seq<Value>, expected: seq<Rule>, compiles: Compiles)
    requires RulesFrom(items, compiles) == Ok(expected)
    ensures ProfileFrom(program, argmatch, Table([("rules", Array(items))]), compiles)
         == Ok(Profile(program, argmatch, expected))
  {
    assert Member(Table([("rules", Array(items))]), "rules") == Some(Array(items));
  }

  /** A rules array of well-formed entries loads as the expected rules. */
  lemma {:induction false} SampleRules(items: seq<Value>, expected: seq<Rule>, compiles: Compiles)
    requires |items| == |expected|
    requires forall j :: 0 <= j < |items| ==>
               items[j] == Array([Str(expected[j].pattern), Str(expected[j].replacement)])
    requires forall j :: 0 <= j < |items| ==> compiles(expected[j].pattern)
    ensures RulesFrom(items, compiles) == Ok(expected)
  {
    forall j | 0 <= j < |items|
      ensures RuleOk(items[j], compiles)
    {
      assert items[j].items[0].text == expected[j].pattern;
    }
    RulesFromOk(items, compiles);
    var rules := RulesFrom(items, compiles).value;
    forall j | 0 <= j < |items|
      ensures rules[j] == expected[j]
    {
      assert items[j].items[0] == Str(rules[j].pattern);
      assert items[j].items[1] == Str(rules[j].replacement);
    }
    assert rules == expected;
  }
}
