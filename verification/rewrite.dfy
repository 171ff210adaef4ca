/**
 * The rule engine and the profile selection policy.
 *
 * `Regex::replace_all` belongs to the regex library: a `Substitution` maps a
 * rule (its pattern source and replacement template) and a text to the
 * rewritten text, and is a parameter. `LiteralReplace` is a concrete
 * substitution (a global replace of a fixed string) used to state examples.
 */
module Rewrite {
  import opened Config

  type Substitution = (Rule, string) -> string

  /** Every rule in order, each one rewriting the previous one's output. */
  function ApplyRules(rules: seq<Rule>, text: string, subst: Substitution): string
  {
    if |rules| == 0 then text else ApplyRules(rules[1..], subst(rules[0], text), subst)
  }

  /** The selection policy: the rules of every profile, in profile order;
      `program` and `argmatch` are not consulted. */
  function SelectRules(profiles: seq<Profile>): seq<Rule>
  {
    if |profiles| == 0 then [] else profiles[0].rules + SelectRules(profiles[1..])
  }

  /** The selected rules are exactly the rules of the profiles: each rule of
      each profile is selected, and nothing else is. */
  lemma {:induction false} SelectRulesMembers(profiles: seq<Profile>)
    ensures forall i, j :: 0 <= i < |profiles| && 0 <= j < |profiles[i].rules| ==> profiles[i].rules[j] in SelectRules(profiles)
    ensures forall x :: x in SelectRules(profiles) ==> exists i :: 0 <= i < |profiles| && x in profiles[i].rules
  {
    if |profiles| > 0 {
      var rest := profiles[1..];
      SelectRulesMembers(rest);
      assert forall i :: 1 <= i < |profiles| ==> profiles[i] == rest[i - 1];
      assert SelectRules(profiles) == profiles[0].rules + SelectRules(rest);
      forall x | x in SelectRules(profiles)
        ensures exists i :: 0 <= i < |profiles| && x in profiles[i].rules
      {
        if x !in profiles[0].rules {
          assert x in SelectRules(rest);
          var i :| 0 <= i < |rest| && x in rest[i].rules;
          assert x in profiles[i + 1].rules;
        }
      }
    }
  }

  /** Applying a concatenation of rule lists is applying one list after the other. */
  lemma {:induction false} ApplyRulesAppend(a: seq<Rule>, b: seq<Rule>, text: string, subst: Substitution)
    ensures ApplyRules(a + b, text, subst) == ApplyRules(b, ApplyRules(a, text, subst), subst)
  {
    if |a| == 0 {
      assert a + b == b;
    } else {
      assert (a + b)[0] == a[0];
      assert (a + b)[1..] == a[1..] + b;
      ApplyRulesAppend(a[1..], b, subst(a[0], text), subst);
    }
  }

  /** Adding a profile at the end adds its rules at the end. */
  lemma {:induction false} SelectRulesSnoc(profiles: seq<Profile>, p: Profile)
    ensures SelectRules(profiles + [p]) == SelectRules(profiles) + p.rules
  {
    if |profiles| == 0 {
      assert profiles + [p] == [p];
    } else {
      assert (profiles + [p])[0] == profiles[0];
      assert (profiles + [p])[1..] == profiles[1..] + [p];
      SelectRulesSnoc(profiles[1..], p);
    }
  }

  /** The rewrite step of the interceptor: for each profile in order, for each
      of its rules in order, replace every match in the current output. */
  method RewriteChunk(profiles: seq<Profile>, text: string, subst: Substitution) returns (output: string)
    ensures output == ApplyRules(SelectRules(profiles), text, subst)
  {
    output := text;
    ghost var done: seq<Rule> := [];
    for i := 0 to |profiles|
      invariant done == SelectRules(profiles[..i])
      invariant output == ApplyRules(done, text, subst)
    {
      var rules := profiles[i].rules;
      assert done + rules[..0] == done;
      for j := 0 to |rules|
        invariant output == ApplyRules(done + rules[..j], text, subst)
      {
        ApplyRulesSnoc(done + rules[..j], rules[j], text, subst);
        assert done + rules[..j + 1] == (done + rules[..j]) + [rules[j]];
        output := subst(rules[j], output);
      }
      assert rules[..|rules|] == rules;
      assert profiles[..i + 1] == profiles[..i] + [profiles[i]];
      SelectRulesSnoc(profiles[..i], profiles[i]);
      done := done + rules;
    }
    assert profiles[..|profiles|] == profiles;
  }

  /** One more rule at the end rewrites the previous result once more. */
  lemma {:induction false} ApplyRulesSnoc(a: seq<Rule>, x: Rule, text: string, subst: Substitution)
    ensures ApplyRules(a + [x], text, subst) == subst(x, ApplyRules(a, text, subst))
  {
    ApplyRulesAppend(a, [x], text, subst);
    assert [x][1..] == [];
  }

  /** `program` and `argmatch` never influence the rewrite: profile lists
      with the same rule lists select the same rules. */
  lemma {:induction false} SelectionIgnoresMatchers(ps: seq<Profile>, qs: seq<Profile>)
    requires |ps| == |qs|
    requires forall i :: 0 <= i < |ps| ==> ps[i].rules == qs[i].rules
    ensures SelectRules(ps) == SelectRules(qs)
  {
    if |ps| > 0 {
      SelectionIgnoresMatchers(ps[1..], qs[1..]);
    }
  }

  /** Whether pat occurs in text at position i. */
  predicate At(pat: string, text: string, i: nat)
  {
    i + |pat| <= |text| && text[i..i + |pat|] == pat
  }

  predicate Occurs(pat: string, text: string)
  {
    exists i: nat :: i <= |text| && At(pat, text, i)
  }

  /** Global replacement of a fixed string: leftmost, non-overlapping matches.
      An empty pattern matches at every position, as in the regex library. */
  function LiteralReplace(pat: string, rep: string, text: string): string
    decreases |text|
  {
    if |pat| == 0 then
      if |text| == 0 then rep else rep + [text[0]] + LiteralReplace(pat, rep, text[1..])
    else if |text| == 0 then []
    else if At(pat, text, 0) then rep + LiteralReplace(pat, rep, text[|pat|..])
    else [text[0]] + LiteralReplace(pat, rep, text[1..])
  }

  function LiteralSubstitution(): Substitution
  {
    (r: Rule, text: string) => LiteralReplace(r.pattern, r.replacement, text)
  }

  /** A pattern that does not occur leaves the text unchanged. */
  lemma {:induction false} LiteralReplaceAbsent(pat: string, rep: string, text: string)
    requires |pat| > 0 && !Occurs(pat, text)
    ensures LiteralReplace(pat, rep, text) == text
    decreases |text|
  {
    if |text| > 0 {
      assert !At(pat, text, 0);
      assert !Occurs(pat, text[1..]) by {
        forall i: nat | i <= |text[1..]| && At(pat, text[1..], i)
          ensures At(pat, text, i + 1)
        {
          assert text[1..][i..i + |pat|] == text[i + 1..i + 1 + |pat|];
        }
      }
      LiteralReplaceAbsent(pat, rep, text[1..]);
    }
  }

  /** Once a replacement pass leaves no occurrence of its pattern, every
      further pass of the same rule is the identity. */
  lemma {:induction false} LiteralSecondPassNoop(pat: string, rep: string, text: string)
    requires |pat| > 0 && !Occurs(pat, LiteralReplace(pat, rep, text))
    ensures LiteralReplace(pat, rep, LiteralReplace(pat, rep, text)) == LiteralReplace(pat, rep, text)
  {
    LiteralReplaceAbsent(pat, rep, LiteralReplace(pat, rep, text));
  }

  /** Rule order matters: "a"->"b" then "b"->"c" turns "a" into "c", the
      other order turns it into "b". */
  lemma {:induction false} RuleOrderMatters()
    ensures ApplyRules([Rule("a", "b"), Rule("b", "c")], "a", LiteralSubstitution()) == "c"
    ensures ApplyRules([Rule("b", "c"), Rule("a", "b")], "a", LiteralSubstitution()) == "b"
  {
    var subst := LiteralSubstitution();
    assert At("a", "a", 0);
    assert LiteralReplace("a", "b", "a") == "b" + LiteralReplace("a", "b", []);
    assert At("b", "b", 0);
    assert LiteralReplace("b", "c", "b") == "c" + LiteralReplace("b", "c", []);
    assert !At("b", "a", 0);
    assert LiteralReplace("b", "c", "a") == "a";
    assert [Rule("a", "b"), Rule("b", "c")][1..] == [Rule("b", "c")];
    assert [Rule("b", "c"), Rule("a", "b")][1..] == [Rule("a", "b")];
  }
}
