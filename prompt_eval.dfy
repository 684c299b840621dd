/** The prompt evaluator's pure parts: template rendering with `{name}`
    placeholders and `{{`/`}}` escapes, the colour class of a score, and the
    summary figures of the evaluation report. */
module PromptEval {
  import opened Values
  import opened Text

  // ---------------------------------------------------------------------
  // render

  predicate IsBrace(c: char) { c == '{' || c == '}' }

  /** The end of the run of non-brace characters starting at `i`. */
  function RunEnd(s: string, i: nat): (r: nat)
    requires i <= |s|
    ensures i <= r <= |s|
    ensures forall k :: i <= k < r ==> !IsBrace(s[k])
    ensures r < |s| ==> IsBrace(s[r])
    decreases |s| - i
  {
    if i == |s| || IsBrace(s[i]) then i else RunEnd(s, i + 1)
  }

  /** `re.findall(r"{([^{}]+)}", s)`: scanning from the left, a `{`
      followed by one or more non-brace characters and a `}` yields the
      characters between; the scan resumes after the `}`, or one character
      further on when no placeholder starts here. */
  function Placeholders(s: string): (r: seq<string>)
    ensures forall i :: 0 <= i < |r| ==> r[i] != "" && forall k :: 0 <= k < |r[i]| ==> !IsBrace(r[i][k])
    decreases |s|
  {
    if s == [] then []
    else if s[0] == '{' then
      var j := RunEnd(s, 1);
      if j > 1 && j < |s| && s[j] == '}' then [s[1..j]] + Placeholders(s[j + 1..])
      else Placeholders(s[1..])
    else Placeholders(s[1..])
  }

  function Braced(name: string): string { "{" + name + "}" }

  /** The loop of `render`: each placeholder that names a variable is
      replaced, everywhere in the current text, by the variable's value. */
  function Substitute(text: string, names: seq<string>, variables: map<string, string>): string
    decreases |names|
  {
    if names == [] then text
    else
      var next := if names[0] in variables then Replace(text, Braced(names[0]), variables[names[0]]) else text;
      Substitute(next, names[1..], variables)
  }

  /** The final unescaping: `{{` becomes `{`, then `}}` becomes `}`. */
  function Unescape(s: string): string {
    Replace(Replace(s, "{{", "{"), "}}", "}")
  }

  /** `render(template, variables)`, with each value already turned into
      its `str()` form. */
  function Rendered(template: string, variables: map<string, string>): string {
    Unescape(Substitute(template, Placeholders(template), variables))
  }

  method Render(template: string, variables: map<string, string>) returns (r: string)
    ensures r == Rendered(template, variables)
  {
    var names := Placeholders(template);
    var result := template;
    for i := 0 to |names|
      invariant Substitute(template, names, variables) == Substitute(result, names[i..], variables)
    {
      assert names[i..][1..] == names[i + 1..];
      if names[i] in variables {
        result := Replace(result, Braced(names[i]), variables[names[i]]);
      }
    }
    assert names[|names|..] == [];
    r := Unescape(result);
  }

  lemma ReplaceNoFirstChar(s: string, pat: string, rep: string)
    requires pat != [] && pat[0] !in s
    ensures Replace(s, pat, rep) == s
  {
    forall i ensures !OccursAt(s, pat, i) {
      if 0 <= i && i + |pat| <= |s| {
        assert s[i..i + |pat|][0] == s[i] && s[i] in s;
      }
    }
    CountZeroIffAbsent(s, pat);
    ReplaceAbsent(s, pat, rep);
  }

  lemma {:induction false} NoPlaceholders(s: string)
    requires '{' !in s
    ensures Placeholders(s) == []
    decreases |s|
  {
    if s != [] {
      assert '{' !in s[1..] by { forall c | c in s[1..] ensures c != '{' { assert c in s; } }
      NoPlaceholders(s[1..]);
    }
  }

  /** A template without braces comes back unchanged. */
  lemma RenderNoBraces(template: string, variables: map<string, string>)
    requires '{' !in template && '}' !in template
    ensures Rendered(template, variables) == template
  {
    NoPlaceholders(template);
    ReplaceNoFirstChar(template, "{{", "{");
    ReplaceNoFirstChar(template, "}}", "}");
  }

  /** A single placeholder naming a variable becomes the variable's value. */
  lemma RenderSingle(name: string, variables: map<string, string>)
    requires name != "" && '{' !in name && '}' !in name
    requires name in variables && '{' !in variables[name] && '}' !in variables[name]
    ensures Rendered(Braced(name), variables) == variables[name]
  {
    var s := Braced(name);
    var j := |name| + 1;
    assert s[1..j] == name;
    assert RunEnd(s, 1) == j by {
      forall k | 1 <= k < j ensures !IsBrace(s[k]) { assert s[k] == name[k - 1]; }
      RunEndIs(s, 1, j);
    }
    assert s[j + 1..] == [];
    assert Placeholders(s) == [name] + Placeholders([]);
    var value := variables[name];
    assert ReplaceNonEmpty(s, s, value) == value + ReplaceNonEmpty([], s, value);
    assert Substitute(s, [name], variables) == Substitute(value, [], variables);
    ReplaceNoFirstChar(value, "{{", "{");
    ReplaceNoFirstChar(value, "}}", "}");
  }

  lemma {:induction false} RunEndIs(s: string, i: nat, j: nat)
    requires i <= j <= |s|
    requires forall k :: i <= k < j ==> !IsBrace(s[k])
    requires j == |s| || IsBrace(s[j])
    ensures RunEnd(s, i) == j
    decreases j - i
  {
    if i < j {
      RunEndIs(s, i + 1, j);
    }
  }

  /** Variables no placeholder names have no effect. */
  lemma {:induction false} SubstituteIgnoresOthers(text: string, names: seq<string>, variables: map<string, string>,
                                                 key: string, value: string)
    requires key !in names
    ensures Substitute(text, names, variables[key := value]) == Substitute(text, names, variables)
    decreases |names|
  {
    if names != [] {
      assert names[0] != key;
      var next := if names[0] in variables then Replace(text, Braced(names[0]), variables[names[0]]) else text;
      assert key !in names[1..] by { forall x | x in names[1..] ensures x != key { assert x in names; } }
      SubstituteIgnoresOthers(next, names[1..], variables, key, value);
    }
  }

  lemma RenderIgnoresOthers(template: string, variables: map<string, string>, key: string, value: string)
    requires key !in Placeholders(template)
    ensures Rendered(template, variables[key := value]) == Rendered(template, variables)
  {
    SubstituteIgnoresOthers(template, Placeholders(template), variables, key, value);
  }

  /** Placeholders that name no variable are left as written: only the
      escapes are undone. */
  lemma {:induction false} SubstituteUnknown(text: string, names: seq<string>, variables: map<string, string>)
    requires forall i :: 0 <= i < |names| ==> names[i] !in variables
    ensures Substitute(text, names, variables) == text
    decreases |names|
  {
    if names != [] {
      SubstituteUnknown(text, names[1..], variables);
    }
  }

  lemma RenderUnknown(template: string, variables: map<string, string>)
    requires forall i :: 0 <= i < |Placeholders(template)| ==> Placeholders(template)[i] !in variables
    ensures Rendered(template, variables) == Unescape(template)
  {
    SubstituteUnknown(template, Placeholders(template), variables);
  }

  // ---------------------------------------------------------------------
  // generate_prompt_evaluation_report: the figures

  /** The colour class of a score in the report. */
  function ScoreClass(score: int): (r: string)
    ensures r == "score-high" <==> score >= 8
    ensures r == "score-low" <==> score <= 5
    ensures r == "score-medium" <==> 5 < score < 8
  {
    if score >= 8 then "score-high" else if score <= 5 then "score-low" else "score-medium"
  }

  /** The report's rows, one per result and in order, each with its score's
      class. */
  method RowClasses(scores: seq<int>) returns (classes: seq<string>)
    ensures |classes| == |scores|
    ensures forall i :: 0 <= i < |scores| ==> classes[i] == ScoreClass(scores[i])
  {
    classes := [];
    for i := 0 to |scores|
      invariant |classes| == i
      invariant forall k :: 0 <= k < i ==> classes[k] == ScoreClass(scores[k])
    {
      classes := classes + [ScoreClass(scores[i])];
    }
  }

  function Passing(scores: seq<int>): (r: nat)
    ensures r <= |scores|
    decreases |scores|
  {
    if scores == [] then 0 else (if scores[0] >= 7 then 1 else 0) + Passing(scores[1..])
  }

  lemma {:induction false} PassingBounds(scores: seq<int>)
    ensures Passing(scores) == |scores| <==> forall i :: 0 <= i < |scores| ==> scores[i] >= 7
    ensures Passing(scores) == 0 <==> forall i :: 0 <= i < |scores| ==> scores[i] < 7
    decreases |scores|
  {
    if scores != [] {
      PassingBounds(scores[1..]);
      assert forall i :: 1 <= i < |scores| ==> scores[i] == scores[1..][i - 1];
    }
  }

  /** `100 * len([s for s in scores if s >= 7]) / total`, or 0 with no results. */
  function PassRate(scores: seq<int>): (r: real)
    ensures 0.0 <= r <= 100.0
    ensures scores == [] ==> r == 0.0
  {
    if scores == [] then 0.0 else 100.0 * (Passing(scores) as real) / (|scores| as real)
  }

  /** Every score passing gives 100, none passing gives 0. */
  lemma PassRateExtremes(scores: seq<int>)
    requires scores != []
    ensures PassRate(scores) == 100.0 <==> forall i :: 0 <= i < |scores| ==> scores[i] >= 7
    ensures PassRate(scores) == 0.0 <==> forall i :: 0 <= i < |scores| ==> scores[i] < 7
  {
    PassingBounds(scores);
    RateExtremes(Passing(scores) as real, |scores| as real);
  }

  lemma RateExtremes(p: real, n: real)
    requires 0.0 <= p <= n && n > 0.0
    ensures 100.0 * p / n == 100.0 <==> p == n
    ensures 100.0 * p / n == 0.0 <==> p == 0.0
  {
    var rate := 100.0 * p / n;
    DivScale(100.0 * p, n);
    Cancel(rate, 100.0, n);
    Cancel(rate, 0.0, n);
    Cancel(p, n, 100.0);
  }

  lemma Cancel(a: real, b: real, n: real)
    requires n > 0.0
    ensures a * n == b * n <==> a == b
  {
    if a < b {
      assert (b - a) * n > 0.0;
    } else if a > b {
      assert (a - b) * n > 0.0;
    }
  }

  lemma DivScale(a: real, n: real)
    requires n > 0.0
    ensures (a / n) * n == a
  {
  }

  function Sum(scores: seq<int>): int
    decreases |scores|
  {
    if scores == [] then 0 else scores[0] + Sum(scores[1..])
  }

  /** `mean(scores) if scores else 0`, exactly. */
  function Average(scores: seq<int>): real {
    if scores == [] then 0.0 else (Sum(scores) as real) / (|scores| as real)
  }

  /** `n * x` as repeated addition, so that the bounds below stay linear. */
  function Times(n: nat, x: int): int {
    if n == 0 then 0 else x + Times(n - 1, x)
  }

  lemma {:induction false} TimesReal(n: nat, x: int)
    ensures Times(n, x) as real == (n as real) * (x as real)
  {
    if n > 0 {
      TimesReal(n - 1, x);
      RealSucc((n - 1) as real, x as real);
    }
  }

  lemma RealSucc(m: real, x: real)
    ensures (m + 1.0) * x == m * x + x
  {
  }

  lemma {:induction false} SumBounds(scores: seq<int>, lo: int, hi: int)
    requires forall i :: 0 <= i < |scores| ==> lo <= scores[i] <= hi
    ensures Times(|scores|, lo) <= Sum(scores) <= Times(|scores|, hi)
    decreases |scores|
  {
    if scores != [] {
      var tail := scores[1..];
      assert forall i :: 0 <= i < |tail| ==> tail[i] == scores[i + 1];
      SumBounds(tail, lo, hi);
    }
  }

  /** The average lies within the range of the scores. */
  lemma AverageBounds(scores: seq<int>, lo: int, hi: int)
    requires scores != []
    requires forall i :: 0 <= i < |scores| ==> lo <= scores[i] <= hi
    ensures lo as real <= Average(scores) <= hi as real
  {
    var n := |scores|;
    SumBounds(scores, lo, hi);
    TimesReal(n, lo);
    TimesReal(n, hi);
    DivBetween(Sum(scores) as real, n as real, lo as real, hi as real, Times(n, lo) as real, Times(n, hi) as real);
  }

  lemma DivBetween(total: real, n: real, lo: real, hi: real, below: real, above: real)
    requires n > 0.0 && below == n * lo && above == n * hi && below <= total <= above
    ensures lo <= total / n <= hi
  {
    DivScale(total, n);
    var avg := total / n;
    assert (avg - lo) * n >= 0.0;
    assert (hi - avg) * n >= 0.0;
  }

  /** A function defined in a class body and called through an instance gets
      the instance as an extra first argument; a call whose argument count
      differs from the parameter count raises TypeError. */
  function BoundCall(params: nat, args: nat): (r: Outcome)
    ensures r.Pass? <==> args + 1 == params
    ensures r.Fail? ==> r.error == TypeError
  {
    if args + 1 == params then Pass else Fail(TypeError)
  }

  /** `generate_prompt_evaluation_report(evaluation_results)` takes one
      parameter and no `self`. */
  const ReportParams: nat := 1

  /** As written, `self.generate_prompt_evaluation_report(results)` passes
      two arguments to that one parameter and raises TypeError. */
  lemma ReportCallAsWritten()
    ensures BoundCall(ReportParams, 1) == Fail(TypeError)
  {
  }

  datatype ReportStats = ReportStats(totalTests: nat, averageScore: real, passRate: real)

  /** The figures `generate_prompt_evaluation_report` computes from the
      results' scores. */
  function Stats(scores: seq<int>): (r: ReportStats)
    ensures r.totalTests == |scores|
    ensures scores == [] ==> r.averageScore == 0.0 && r.passRate == 0.0
  {
    ReportStats(|scores|, Average(scores), PassRate(scores))
  }
}
