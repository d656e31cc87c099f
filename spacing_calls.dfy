/** The `--spacing(...)` rewrite of `LoadPlugins` in
    src/Project/ConfigurationClassGenerator.cs: while a description holds
    `--spacing(`, the text up to its balancing `)` is replaced, everywhere it
    occurs, by `calc(var(--spacing) * ...)`; an occurrence without a
    balancing `)` makes the value type be skipped. */
module SpacingCalls {
  import opened Strings
  import opened Wrappers

  /** What a balanced `--spacing(e)` becomes: `calc(var(--spacing) * e)`,
      kept in the pieces the proofs below cut it at. */
  function CalcText(parameter: string): string {
    Concat(["calc(var", "(--spacing", ") * ", parameter, ")"])
  }

  /** A call `--spacing(e)`. */
  function CallText(parameter: string): (r: string)
    ensures |r| == |parameter| + 11
  {
    var parts := ["--spacing(", parameter, ")"];
    assert Concat(parts[2..]) == ")";
    assert Concat(parts[1..]) == parameter + ")";
    Concat(parts)
  }

  lemma CallTextPieces(parameter: string)
    ensures CallText(parameter) == "--spacing(" + (parameter + ")")
  {
    var parts := ["--spacing(", parameter, ")"];
    assert Concat(parts[2..]) == ")";
    assert Concat(parts[1..]) == parameter + ")";
  }

  lemma CalcTextPieces(parameter: string)
    ensures CalcText(parameter) == "calc(var" + ("(--spacing" + (") * " + (parameter + ")")))
  {
    var parts := ["calc(var", "(--spacing", ") * ", parameter, ")"];
    assert Concat(parts[4..]) == ")";
    assert Concat(parts[3..]) == parameter + ")";
    assert Concat(parts[2..]) == ") * " + (parameter + ")");
    assert Concat(parts[1..]) == "(--spacing" + (") * " + (parameter + ")"));
  }

  // ------------------------------------------------------------ parentheses

  /** `(` minus `)` among s[i..k]. */
  function Depth(s: string, i: nat, k: nat): int
    requires i <= k <= |s|
    decreases k - i
  {
    if i == k then 0
    else (if s[i] == '(' then 1 else if s[i] == ')' then -1 else 0) + Depth(s, i + 1, k)
  }

  /** s[i..e] is balanced: it never closes more than it opened, and closes
      all of it. */
  predicate Balanced(s: string, i: nat, e: nat)
    requires i <= e <= |s|
  {
    Depth(s, i, e) == 0 && forall k :: i <= k <= e ==> Depth(s, i, k) >= 0
  }

  /** The `for` loop's answer: with `levels` parentheses open before `i`,
      the index of the `)` that brings the count to zero, if any. */
  function ClosingParen(s: string, i: nat, levels: nat): (r: Option<nat>)
    requires i <= |s| && levels >= 1
    ensures r.Some? ==> i <= r.value < |s| && s[r.value] == ')'
    decreases |s| - i
  {
    if i == |s| then None
    else if s[i] == '(' then ClosingParen(s, i + 1, levels + 1)
    else if s[i] == ')' then (if levels == 1 then Some(i) else ClosingParen(s, i + 1, levels - 1))
    else ClosingParen(s, i + 1, levels)
  }

  /** ClosingParen finds the first point where the open count reaches zero,
      and finds nothing exactly when it never does. */
  lemma {:induction false} ClosingParenMeaning(s: string, i: nat, levels: nat)
    requires i <= |s| && levels >= 1
    ensures ClosingParen(s, i, levels).Some? ==>
      var e := ClosingParen(s, i, levels).value;
      levels + Depth(s, i, e) == 1 && forall k :: i <= k <= e ==> levels + Depth(s, i, k) >= 1
    ensures ClosingParen(s, i, levels).None? ==> forall k :: i <= k <= |s| ==> levels + Depth(s, i, k) >= 1
    decreases |s| - i
  {
    if i < |s| {
      var d := if s[i] == '(' then 1 else if s[i] == ')' then -1 else 0;
      if s[i] == ')' && levels == 1 {
      } else {
        ClosingParenMeaning(s, i + 1, levels + d);
        forall k | i + 1 <= k <= |s|
          ensures Depth(s, i, k) == d + Depth(s, i + 1, k)
        {
        }
      }
    }
  }

  /** A balanced parameter followed by `)` is closed exactly there. */
  lemma {:induction false} BalancedCloses(s: string, i: nat, levels: nat, e: nat)
    requires i <= e < |s| && s[e] == ')' && levels >= 1
    requires levels + Depth(s, i, e) == 1 && forall k :: i <= k <= e ==> levels + Depth(s, i, k) >= 1
    ensures ClosingParen(s, i, levels) == Some(e)
    decreases e - i
  {
    if i < e {
      var d := if s[i] == '(' then 1 else if s[i] == ')' then -1 else 0;
      var next := i + 1;
      assert levels + Depth(s, i, next) >= 1;
      forall k | next <= k <= e
        ensures levels + d + Depth(s, next, k) >= 1
      {
        assert Depth(s, i, k) == d + Depth(s, next, k);
      }
      BalancedCloses(s, next, levels + d, e);
    }
  }

  // ------------------------------------------------------------ termination

  /** The number of `g(` pairs: every `--spacing(` holds one, and each
      rewrite removes one. */
  function Hooks(s: string): nat {
    if |s| < 2 then 0 else (if s[0] == 'g' && s[1] == '(' then 1 else 0) + Hooks(s[1..])
  }

  lemma {:induction false} HooksAppend(a: string, b: string)
    ensures Hooks(a + b) == Hooks(a) + Hooks(b) + (if a != [] && b != [] && a[|a| - 1] == 'g' && b[0] == '(' then 1 else 0)
    decreases |a|
  {
    if a == [] {
      assert a + b == b;
    } else if |a| == 1 {
      if b != [] {
        assert (a + b)[1..] == b;
      } else {
        assert a + b == a;
      }
    } else {
      assert (a + b)[1..] == a[1..] + b;
      HooksAppend(a[1..], b);
    }
  }

  /** Cutting a text in three loses no hook. */
  lemma HooksSplit(x: string, t: string, y: string)
    ensures Hooks(x + t + y) >= Hooks(x) + Hooks(t) + Hooks(y)
  {
    HooksAppend(x + t, y);
    HooksAppend(x, t);
  }

  /** A middle part that neither starts with `(` nor ends with `g` joins
      without forming a hook. */
  lemma HooksJoin(x: string, r: string, y: string)
    requires r != [] && r[0] != '(' && r[|r| - 1] != 'g'
    ensures Hooks(x + r + y) == Hooks(x) + Hooks(r) + Hooks(y)
  {
    HooksAppend(x + r, y);
    HooksAppend(x, r);
    assert (x + r)[|x + r| - 1] == r[|r| - 1];
  }

  /** Replacing every occurrence of `target` by a text with fewer hooks that
      neither starts with `(` nor ends with `g` never adds a hook, and
      removes at least one when `target` occurs. */
  lemma {:induction false} ReplaceLosesHooks(s: string, target: string, replacement: string)
    requires target != [] && replacement != []
    requires Hooks(replacement) < Hooks(target)
    requires replacement[0] != '(' && replacement[|replacement| - 1] != 'g'
    ensures Hooks(Replace(s, target, replacement)) <= Hooks(s)
    ensures Contains(s, target) ==> Hooks(Replace(s, target, replacement)) < Hooks(s)
    decreases |s|
  {
    FindIsIndexOf(s, target, 0);
    var i := IndexOf(s, target);
    if i != -1 {
      var x := s[..i];
      var y := s[i + |target|..];
      ReplaceLosesHooks(y, target, replacement);
      assert s == x + target + y;
      HooksSplit(x, target, y);
      HooksJoin(x, replacement, Replace(y, target, replacement));
    }
  }

  lemma CallWordHook()
    ensures Hooks("--spacing(") == 1
  {
  }

  lemma CalcOpenHookless()
    ensures Hooks("calc(var") == 0
  {
  }

  lemma SpacingWordHookless()
    ensures Hooks("(--spacing") == 0
  {
  }

  lemma TimesHookless()
    ensures Hooks(") * ") == 0
  {
  }

  /** `--spacing(p)` has one hook more than `p`. */
  lemma CallHooks(parameter: string)
    ensures Hooks("--spacing(" + (parameter + ")")) == Hooks(parameter) + 1
  {
    CallWordHook();
    HooksAppend(parameter, ")");
    HooksAppend("--spacing(", parameter + ")");
  }

  /** `calc(var(--spacing) * p)` has as many hooks as `p`. */
  lemma CalcHooks(parameter: string)
    ensures Hooks(CalcText(parameter)) == Hooks(parameter)
  {
    CalcOpenHookless();
    SpacingWordHookless();
    TimesHookless();
    CalcTextPieces(parameter);
    var tail := parameter + ")";
    HooksAppend(parameter, ")");
    HooksAppend(") * ", tail);
    HooksAppend("(--spacing", ") * " + tail);
    HooksAppend("calc(var", "(--spacing" + (") * " + tail));
  }

  /** One rewrite step removes a hook. */
  lemma RewriteLosesHook(desc: string, i: nat, e: nat)
    requires OccursAt(desc, "--spacing(", i) && i + 10 <= e < |desc| && desc[e] == ')'
    ensures Hooks(Replace(desc, desc[i..e + 1], CalcText(desc[i + 10..e]))) < Hooks(desc)
  {
    var parameter := desc[i + 10..e];
    var total := desc[i..e + 1];
    assert total == "--spacing(" + (parameter + ")");
    CallHooks(parameter);
    CalcHooks(parameter);
    CalcTextPieces(parameter);
    assert OccursAt(desc, total, i);
    ReplaceLosesHooks(desc, total, CalcText(parameter));
  }

  // ---------------------------------------------------------------- rewrite

  /** What one pass of the loop finds: no call left, a call never closed,
      or the text with that call rewritten everywhere. */
  datatype Step = Done | Unclosed | Next(text: string)

  function StepOf(desc: string): Step {
    var i := Find(desc, "--spacing(", 0);
    if i == -1 then Done
    else
      match ClosingParen(desc, i + 10, 1)
      case None => Unclosed
      case Some(e) => Next(Replace(desc, desc[i..e + 1], CalcText(desc[i + 10..e])))
  }

  /** Each pass that rewrites removes a hook. */
  lemma StepLosesHook(desc: string)
    ensures StepOf(desc).Next? ==> Hooks(StepOf(desc).text) < Hooks(desc)
  {
    var i := Find(desc, "--spacing(", 0);
    if i != -1 {
      match ClosingParen(desc, i + 10, 1)
      case None =>
      case Some(e) =>
        var next := Replace(desc, desc[i..e + 1], CalcText(desc[i + 10..e]));
        assert StepOf(desc) == Next(next);
        RewriteLosesHook(desc, i, e);
    }
  }

  /** The rewritten description, or None when some `--spacing(` is never
      closed. */
  function Rewritten(desc: string): Option<string>
    decreases Hooks(desc)
  {
    match StepOf(desc)
    case Done => Some(desc)
    case Unclosed => None
    case Next(next) =>
      StepLosesHook(desc);
      Rewritten(next)
  }

  lemma RewrittenNext(desc: string, next: string)
    requires StepOf(desc) == Next(next)
    ensures Rewritten(desc) == Rewritten(next)
  {
  }

  lemma RewrittenClean(desc: string)
    requires !Contains(desc, "--spacing(")
    ensures Rewritten(desc) == Some(desc)
  {
    FindIsIndexOf(desc, "--spacing(", 0);
    assert StepOf(desc) == Done;
  }

  /** A rewritten description holds no `--spacing(`. */
  lemma {:induction false} RewrittenHasNoCall(desc: string)
    ensures Rewritten(desc).Some? ==> !Contains(Rewritten(desc).value, "--spacing(")
    decreases Hooks(desc)
  {
    match StepOf(desc)
    case Done =>
      FindIsIndexOf(desc, "--spacing(", 0);
    case Unclosed =>
    case Next(next) =>
      StepLosesHook(desc);
      RewrittenNext(desc, next);
      RewrittenHasNoCall(next);
  }

  /** Past the balancing `)` the count has gone below the opening level. */
  lemma OvershootAfterClose(s: string, i: nat)
    requires i <= |s|
    ensures ClosingParen(s, i, 1).Some? ==>
      ClosingParen(s, i, 1).value + 1 <= |s| && 1 + Depth(s, i, ClosingParen(s, i, 1).value + 1) == 0
  {
    ClosingParenMeaning(s, i, 1);
    if ClosingParen(s, i, 1).Some? {
      DepthSplit(s, i, ClosingParen(s, i, 1).value);
    }
  }

  /** The first `--spacing(` is never closed when the count never drops
      below its opening level: the value type is skipped. */
  lemma UnclosedIsSkipped(desc: string, start: nat)
    requires IndexOf(desc, "--spacing(") != -1 && start == IndexOf(desc, "--spacing(") + 10
    requires forall k :: start <= k <= |desc| ==> 1 + Depth(desc, start, k) >= 1
    ensures Rewritten(desc).None?
  {
    FindIsIndexOf(desc, "--spacing(", 0);
    OvershootAfterClose(desc, start);
    assert StepOf(desc) == Unclosed;
  }

  /** Depth adds up one character at a time from the right. */
  lemma {:induction false} DepthSplit(s: string, i: nat, e: nat)
    requires i <= e < |s|
    ensures Depth(s, i, e + 1) == Depth(s, i, e) + (if s[e] == '(' then 1 else if s[e] == ')' then -1 else 0)
    decreases e - i
  {
    if i < e {
      DepthSplit(s, i + 1, e);
    }
  }

  /** A text whose boundary character cannot be part of `sub` holds `sub`
      only where one of its halves does. */
  lemma NoOccurrenceAcross(a: string, b: string, sub: string)
    requires !Contains(a, sub) && !Contains(b, sub)
    requires (a != [] && a[|a| - 1] !in sub) || (b != [] && b[0] !in sub)
    ensures !Contains(a + b, sub)
  {
    forall j | 0 <= j <= |a + b|
      ensures !OccursAt(a + b, sub, j)
    {
      if j + |sub| <= |a + b| {
        var w := (a + b)[j..j + |sub|];
        if j + |sub| <= |a| {
          assert w == a[j..j + |sub|];
          assert !OccursAt(a, sub, j);
        } else if j >= |a| {
          assert w == b[j - |a|..j - |a| + |sub|];
          assert !OccursAt(b, sub, j - |a|);
        } else if a != [] && a[|a| - 1] !in sub {
          assert w[|a| - 1 - j] == a[|a| - 1];
        } else {
          assert w[|a| - j] == b[0];
        }
      }
    }
  }

  /** `calc(var(--spacing) * p)` holds no call when `p` holds none. */
  lemma CalcHoldsNoCall(parameter: string)
    requires !Contains(parameter, "--spacing(")
    ensures !Contains(CalcText(parameter), "--spacing(")
  {
    var call := "--spacing(";
    var b := "(--spacing";
    assert !Contains(b, call) by {
      forall j | 0 <= j <= |b|
        ensures !OccursAt(b, call, j)
      {
        if j == 0 {
          assert b[0..10][0] != call[0];
        }
      }
    }
    assert !Contains(")", call);
    assert !Contains(") * ", call);
    assert !Contains("calc(var", call);
    NoOccurrenceAcross(parameter, ")", call);
    NoOccurrenceAcross(") * ", parameter + ")", call);
    NoOccurrenceAcross(b, ") * " + (parameter + ")"), call);
    NoOccurrenceAcross("calc(var", b + (") * " + (parameter + ")")), call);
    CalcTextPieces(parameter);
  }

  /** Replacing a whole text leaves just the replacement. */
  lemma ReplaceWhole(d: string, replacement: string)
    requires d != []
    ensures Replace(d, d, replacement) == replacement
  {
    assert OccursAt(d, d, 0);
    assert d[|d|..] == [];
    assert d[..0] + replacement == replacement;
  }

  /** In a lone `--spacing(e)` the call starts the text and, when `e` is
      balanced, closes at its last character. */
  lemma SingleCallFound(parameter: string)
    requires Balanced(CallText(parameter), 10, 10 + |parameter|)
    ensures Find(CallText(parameter), "--spacing(", 0) == 0
    ensures ClosingParen(CallText(parameter), 10, 1) == Some(10 + |parameter|)
  {
    CallTextPieces(parameter);
    var desc := CallText(parameter);
    assert desc[0..10] == "--spacing(";
    BalancedCloses(desc, 10, 1, 10 + |parameter|);
  }

  /** A text that is one closed call is rewritten in a single step. */
  lemma WholeCallRewritten(desc: string, e: nat, r: string)
    requires Find(desc, "--spacing(", 0) == 0 && e + 1 == |desc| && 10 <= e
    requires ClosingParen(desc, 10, 1) == Some(e)
    requires r == CalcText(desc[10..e]) && !Contains(r, "--spacing(")
    ensures Rewritten(desc) == Some(r)
  {
    assert desc[0..e + 1] == desc;
    ReplaceWhole(desc, r);
    assert StepOf(desc) == Next(r);
    RewrittenNext(desc, r);
    RewrittenClean(r);
  }

  /** A lone balanced `--spacing(e)` whose parameter holds no further call
      becomes `calc(var(--spacing) * e)`. */
  lemma SingleCallRewritten(parameter: string)
    requires !Contains(parameter, "--spacing(")
    requires Balanced(CallText(parameter), 10, 10 + |parameter|)
    ensures Rewritten(CallText(parameter)) == Some(CalcText(parameter))
  {
    SingleCallFound(parameter);
    CalcHoldsNoCall(parameter);
    CallTextPieces(parameter);
    assert CallText(parameter)[10..10 + |parameter|] == parameter;
    WholeCallRewritten(CallText(parameter), 10 + |parameter|, CalcText(parameter));
  }

  // ---------------------------------------------------------------- methods

  /** The `for` loop: the index of the balancing `)` after `start`, with
      `levels` 0, or the end of the text with `levels` still open. */
  method FindClosing(desc: string, start: nat) returns (end: nat, levels: int)
    requires start <= |desc|
    ensures levels >= 0
    ensures levels == 0 ==> ClosingParen(desc, start, 1) == Some(end)
    ensures levels > 0 ==> ClosingParen(desc, start, 1).None?
  {
    levels := 1;
    end := start;
    while end < |desc|
      invariant start <= end <= |desc| && levels >= 1
      invariant ClosingParen(desc, start, 1) == ClosingParen(desc, end, levels)
    {
      var current := desc[end];
      if current == '(' {
        levels := levels + 1;
      } else if current == ')' {
        levels := levels - 1;
        if levels == 0 {
          break;
        }
      }
      end := end + 1;
    }
  }

  /** The `while` loop over one description: `shouldContinue` is set exactly
      when the rewrite meets an unclosed `--spacing(`, and otherwise the
      description is the rewritten one. */
  method RewriteSpacing(desc0: string) returns (desc: string, shouldContinue: bool)
    ensures shouldContinue <==> Rewritten(desc0).None?
    ensures !shouldContinue ==> Rewritten(desc0) == Some(desc)
  {
    desc := desc0;
    shouldContinue := false;
    var spacingIndex := Find(desc, "--spacing(", 0);
    while spacingIndex != -1
      invariant Rewritten(desc) == Rewritten(desc0)
      invariant spacingIndex == Find(desc, "--spacing(", 0)
      decreases Hooks(desc)
    {
      var start := spacingIndex + 10;
      var end, levels := FindClosing(desc, start);
      if levels > 0 {
        assert StepOf(desc) == Unclosed;
        shouldContinue := true;
        break;
      }
      var parameter := desc[start..end];
      var total := desc[spacingIndex..end + 1];
      assert StepOf(desc) == Next(Replace(desc, total, CalcText(parameter)));
      StepLosesHook(desc);
      RewrittenNext(desc, Replace(desc, total, CalcText(parameter)));
      desc := Replace(desc, total, CalcText(parameter));
      spacingIndex := Find(desc, "--spacing(", 0);
    }
    if !shouldContinue {
      FindIsIndexOf(desc, "--spacing(", 0);
      RewrittenClean(desc);
    }
  }
}
