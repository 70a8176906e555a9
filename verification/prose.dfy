/** core/comment.py: what defanging and stripping leave of model prose. */
module Prose {
  import opened Text
  import opened DiffParse
  import opened Snap
  import opened Markers

  const SPACE: char := '\U{200b}'
  const FENCE := "```"
  const BROKEN := "`\U{200b}`\U{200b}`"

  // ----- Fences -----

  /** Three backticks in a row stand somewhere in the text. */
  predicate HasFence(s: string) {
    s != "" && (StartsWith(s, FENCE) || HasFence(s[1..]))
  }

  function Ticks(n: nat): (s: string)
    ensures |s| == n && forall i :: 0 <= i < n ==> s[i] == '`'
  {
    if n == 0 then "" else "`" + Ticks(n - 1)
  }

  /** The backticks from lo to hi are a whole run: no other stands next to them. */
  predicate WholeRun(s: string, lo: nat, hi: nat) {
    && lo <= hi <= |s|
    && (forall i :: lo <= i < hi ==> s[i] == '`')
    && (lo > 0 ==> s[lo - 1] != '`')
    && (hi < |s| ==> s[hi] != '`')
  }

  predicate IsOdd(n: int) {
    n >= 5 && n % 3 == 2
  }

  /** Some whole run of backticks is longer than three and two more than a multiple of three. */
  ghost predicate OddRun(s: string) {
    exists lo: nat, hi: nat :: WholeRun(s, lo, hi) && IsOdd(hi - lo)
  }

  /** A run of backticks once its threes are broken up. */
  function BrokenRun(n: nat): string {
    if n < 3 then Ticks(n) else BROKEN + BrokenRun(n - 3)
  }

  lemma {:induction false} BreaksRun(n: nat, after: string)
    requires after == "" || after[0] != '`'
    ensures DefangFences(Ticks(n) + after) == BrokenRun(n) + DefangFences(after)
  {
    var s := Ticks(n) + after;
    if n == 0 {
      assert s == after;
    } else if n < 3 {
      assert s[0] == '`' && s[1..] == Ticks(n - 1) + after;
      assert n < |s| ==> s[n] != '`';
      BreaksRun(n - 1, after);
    } else {
      assert Ticks(n) == FENCE + Ticks(n - 3);
      assert s == FENCE + (Ticks(n - 3) + after);
      assert StartsWith(s, FENCE) && s[3..] == Ticks(n - 3) + after;
      BreaksRun(n - 3, after);
    }
  }

  /** Past text that ends before a run, defanging goes on as if it started there. */
  lemma {:induction false} PassesOver(before: string, after: string)
    requires '`' !in before
    ensures DefangFences(before + after) == before + DefangFences(after)
    decreases |before|
  {
    var s := before + after;
    if before == "" {
      assert s == after;
    } else {
      assert s[0] == before[0] && s[1..] == before[1..] + after;
      PassesOver(before[1..], after);
    }
  }

  lemma {:induction false} NoFenceBefore(before: string, after: string)
    requires '`' !in before
    ensures HasFence(before + after) == HasFence(after)
    decreases |before|
  {
    var s := before + after;
    if before == "" {
      assert s == after;
    } else {
      assert s[0] == before[0] && s[1..] == before[1..] + after;
      NoFenceBefore(before[1..], after);
    }
  }

  /** A broken run has a fence in it exactly when it leaves two over. */
  lemma {:induction false} FenceInRun(n: nat, after: string)
    requires after == "" || after[0] != '`'
    ensures HasFence(BrokenRun(n) + after) <==> IsOdd(n) || HasFence(after)
  {
    hide HasFence, Ticks;
    if n < 3 {
      FewTicks(n, after);
    } else {
      var rest := BrokenRun(n - 3) + after;
      assert BrokenRun(n) + after == BROKEN + rest;
      BrokenThen(rest);
      OneMore(n - 3, after);
      FenceInRun(n - 3, after);
    }
  }

  lemma {:induction false} BrokenThen(rest: string)
    ensures HasFence(BROKEN + rest) <==> StartsWith("`" + rest, FENCE) || HasFence(rest)
  {
    var t := "`" + rest;
    assert t[1..] == rest;
    assert HasFence(t) <==> StartsWith(t, FENCE) || HasFence(t[1..]);
    SpacedTick("`\U{200b}" + t);
    SpacedTick(t);
    hide HasFence;
    assert BROKEN + rest == "`\U{200b}" + ("`\U{200b}" + t);
  }

  /** A backtick that is kept apart starts no fence. */
  lemma {:induction false} SpacedTick(rest: string)
    ensures HasFence("`\U{200b}" + rest) <==> HasFence(rest)
  {
    var s := "`\U{200b}" + rest;
    assert s[1] == SPACE && s[1..][1..] == rest && s[1..] == [SPACE] + rest;
  }

  /** One more backtick before a broken run makes a fence with two. */
  lemma {:induction false} OneMore(n: nat, after: string)
    requires after == "" || after[0] != '`'
    ensures StartsWith("`" + (BrokenRun(n) + after), FENCE) <==> n == 2
  {
    var s := "`" + (BrokenRun(n) + after);
    if n < 3 {
      assert n + 1 < |s| ==> s[n + 1] != '`';
    } else {
      assert s[2] == BROKEN[1];
    }
  }

  lemma {:induction false} FewTicks(n: nat, after: string)
    requires n < 3 && (after == "" || after[0] != '`')
    ensures HasFence(Ticks(n) + after) <==> HasFence(after)
  {
    var s := Ticks(n) + after;
    if n == 0 {
      assert s == after;
    } else {
      assert s[1..] == Ticks(n - 1) + after;
      FewTicks(n - 1, after);
      assert n < |s| ==> s[n] != '`';
    }
  }

  /** Where the first run of the text stands. */
  lemma {:induction false} FirstRun(s: string) returns (lo: nat, hi: nat)
    ensures WholeRun(s, lo, hi) && '`' !in s[..lo] && (lo == hi ==> hi == |s|)
  {
    lo := 0;
    while lo < |s| && s[lo] != '`'
      invariant lo <= |s| && '`' !in s[..lo]
    {
      lo := lo + 1;
    }
    hi := lo;
    while hi < |s| && s[hi] == '`'
      invariant lo <= hi <= |s| && forall i :: lo <= i < hi ==> s[i] == '`'
    {
      hi := hi + 1;
    }
  }

  /** Any other run of the text is one of what stands after its first. */
  lemma {:induction false} LaterRun(s: string, lo: nat, hi: nat, a: nat, b: nat)
    requires WholeRun(s, lo, hi) && '`' !in s[..lo] && lo < hi && a < b
    ensures WholeRun(s, a, b) ==> (a == lo && b == hi) || (hi <= a && WholeRun(s[hi..], a - hi, b - hi))
    ensures hi <= a && WholeRun(s[hi..], a - hi, b - hi) ==> WholeRun(s, a, b)
  {
    assert forall i :: 0 <= i < lo ==> s[..lo][i] == s[i];
    assert forall i :: hi <= i < |s| ==> s[hi..][i - hi] == s[i];
    if WholeRun(s, a, b) {
      assert s[a] == '`';
      assert lo <= a;
    }
  }

  lemma {:induction false} RunsOf(s: string, lo: nat, hi: nat)
    requires WholeRun(s, lo, hi) && '`' !in s[..lo] && lo < hi
    ensures OddRun(s) <==> IsOdd(hi - lo) || OddRun(s[hi..])
  {
    assert hi <= |s|;
    hide WholeRun;
    if OddRun(s) {
      var a: nat, b: nat :| WholeRun(s, a, b) && IsOdd(b - a);
      LaterRun(s, lo, hi, a, b);
    }
    if OddRun(s[hi..]) {
      var a: nat, b: nat :| WholeRun(s[hi..], a, b) && IsOdd(b - a);
      assert WholeRun(s[hi..], a + hi - hi, b + hi - hi);
      LaterRun(s, lo, hi, a + hi, b + hi);
    }
  }

  lemma {:induction false} IsTicks(s: string, n: nat)
    requires |s| == n && forall i :: 0 <= i < n ==> s[i] == '`'
    ensures s == Ticks(n)
  {
  }

  lemma {:induction false} AtFirstRun(before: string, n: nat, after: string)
    requires '`' !in before && (after == "" || after[0] != '`')
    ensures HasFence(DefangFences(before + (Ticks(n) + after))) <==> IsOdd(n) || HasFence(DefangFences(after))
  {
    var rest := DefangFences(after);
    assert rest == "" || rest[0] != '`';
    hide HasFence, DefangFences, BrokenRun, Ticks;
    PassesOver(before, Ticks(n) + after);
    BreaksRun(n, after);
    NoFenceBefore(before, BrokenRun(n) + rest);
    FenceInRun(n, rest);
  }

  /** Defanged, a text keeps a fence exactly when some whole run of its backticks is longer than three and two more
      than a multiple of three. */
  lemma {:induction false} FenceLeftExactly(s: string)
    ensures HasFence(DefangFences(s)) <==> OddRun(s)
    decreases |s|
  {
    var lo, hi := FirstRun(s);
    hide HasFence, DefangFences, Ticks, OddRun, IsOdd;
    if lo == hi {
      assert s[..lo] == s;
      NoRun(s);
    } else {
      var after := s[hi..];
      IsTicks(s[lo..hi], hi - lo);
      assert s == s[..lo] + (Ticks(hi - lo) + after);
      assert after == "" || after[0] != '`';
      assert '`' !in s[..lo];
      RunsOf(s, lo, hi);
      hide WholeRun;
      AtFirstRun(s[..lo], hi - lo, after);
      FenceLeftExactly(after);
    }
  }

  lemma {:induction false} RunHasTick(s: string, lo: nat, hi: nat)
    requires WholeRun(s, lo, hi) && lo < hi
    ensures '`' in s
  {
    assert s[lo] in s;
  }

  lemma {:induction false} NoRun(s: string)
    requires '`' !in s
    ensures !OddRun(s) && !HasFence(DefangFences(s))
  {
    PassesOver(s, "");
    NoFenceBefore(s, "");
    assert s + "" == s && DefangFences("") == "" && !HasFence("");
    forall lo: nat, hi: nat | WholeRun(s, lo, hi) ensures !IsOdd(hi - lo) {
      if lo < hi {
        RunHasTick(s, lo, hi);
      }
    }
  }

  // ----- The rest of the text -----

  /** The text without its spaces of no width. */
  function Unspaced(s: string): string {
    if s == "" then "" else (if s[0] == SPACE then "" else [s[0]]) + Unspaced(s[1..])
  }

  lemma {:induction false} UnspacedConcat(a: string, b: string)
    ensures Unspaced(a + b) == Unspaced(a) + Unspaced(b)
    decreases |a|
  {
    if a == "" {
      assert a + b == b;
    } else {
      assert (a + b)[1..] == a[1..] + b;
      UnspacedConcat(a[1..], b);
    }
  }

  lemma {:induction false} UnspacedBroken()
    ensures Unspaced(BROKEN) == Unspaced(FENCE)
  {
    assert BROKEN[1..] == "\U{200b}`\U{200b}`" && BROKEN[1..][1..] == "`\U{200b}`";
    assert BROKEN[1..][1..][1..] == "\U{200b}`" && BROKEN[1..][1..][1..][1..] == "`";
    assert FENCE[1..] == "``" && FENCE[1..][1..] == "`";
    assert "`"[1..] == "";
  }

  /** It reads as before but for spaces of no width. */
  lemma {:induction false} ReadsAsBefore(s: string)
    ensures Unspaced(DefangFences(s)) == Unspaced(s)
    decreases |s|
  {
    if s != "" {
      if StartsWith(s, FENCE) {
        assert s == FENCE + s[3..];
        UnspacedConcat(FENCE, s[3..]);
        UnspacedConcat(BROKEN, DefangFences(s[3..]));
        UnspacedBroken();
        ReadsAsBefore(s[3..]);
      } else {
        assert s == [s[0]] + s[1..];
        UnspacedConcat([s[0]], s[1..]);
        UnspacedConcat([s[0]], DefangFences(s[1..]));
        ReadsAsBefore(s[1..]);
      }
    }
  }

  // ----- Markers -----

  /** No backtick or space of no width, so nothing defanging takes or puts in. */
  predicate Untouched(s: string) {
    '`' !in s && SPACE !in s
  }

  /** What starts a defanged text and holds no backtick starts the text. */
  lemma {:induction false} StartsAsBefore(s: string, prefix: string)
    requires Untouched(prefix) && StartsWith(DefangFences(s), prefix)
    ensures StartsWith(s, prefix) && DefangFences(s)[|prefix|..] == DefangFences(s[|prefix|..])
    decreases |prefix|
  {
    if prefix != "" {
      var d := DefangFences(s);
      assert d[0] == prefix[0] && d[0] != '`' && s != "" && !StartsWith(s, FENCE);
      assert d == [s[0]] + DefangFences(s[1..]) && d[1..] == DefangFences(s[1..]);
      assert StartsWith(d[1..], prefix[1..]);
      StartsAsBefore(s[1..], prefix[1..]);
      assert s[1..][|prefix| - 1..] == s[|prefix|..] && d[1..][|prefix| - 1..] == d[|prefix|..];
    }
  }

  lemma {:induction false} StripsAsBefore(s: string)
    ensures StripLeft(DefangFences(s)) == DefangFences(StripLeft(s))
    decreases |s|
  {
    if s != "" && !StartsWith(s, FENCE) && IsSpace(s[0]) {
      assert DefangFences(s)[1..] == DefangFences(s[1..]);
      StripsAsBefore(s[1..]);
    }
  }

  lemma {:induction false} ClosesLater(before: string, after: string)
    requires '-' !in before
    ensures CloseEnd(before + after).Some? <==> CloseEnd(after).Some?
    decreases |before|
  {
    var s := before + after;
    if before == "" {
      assert s == after;
    } else {
      assert s[0] == before[0] && s[1..] == before[1..] + after;
      ClosesLater(before[1..], after);
    }
  }

  lemma {:induction false} ClosesAsBefore(s: string)
    requires CloseEnd(DefangFences(s)).Some?
    ensures CloseEnd(s).Some?
    decreases |s|
  {
    var d := DefangFences(s);
    if StartsWith(s, "-->") || s == "" {
    } else if StartsWith(s, FENCE) {
      assert d == BROKEN + DefangFences(s[3..]) && s == FENCE + s[3..];
      ClosesLater(BROKEN, DefangFences(s[3..]));
      ClosesAsBefore(s[3..]);
      ClosesLater(FENCE, s[3..]);
    } else {
      assert d == [s[0]] + DefangFences(s[1..]) && d[1..] == DefangFences(s[1..]);
      if StartsWith(d, "-->") {
        StartsAsBefore(s, "-->");
      } else {
        ClosesAsBefore(s[1..]);
      }
    }
  }

  /** A marker at the start of a defanged text is one at the start of the text. */
  lemma {:induction false} MarkerAsBefore(s: string)
    requires MarkerLength(DefangFences(s)).Some?
    ensures MarkerLength(s).Some?
  {
    var d := DefangFences(s);
    StartsAsBefore(s, "<!--");
    StripsAsBefore(s[4..]);
    StartsAsBefore(StripLeft(s[4..]), "lgtmaybe");
    ClosesAsBefore(StripLeft(s[4..])[8..]);
  }

  lemma {:induction false} DefangedIsMarkerFree(s: string)
    requires MarkerFree(s)
    ensures MarkerFree(DefangFences(s))
    decreases |s|
  {
    var d := DefangFences(s);
    if s == "" {
    } else {
      var k, n := if StartsWith(s, FENCE) then 3 else 1, if StartsWith(s, FENCE) then 5 else 1;
      assert s[0..] == s && d[0..] == d;
      forall i | 0 <= i < |s[k..]| ensures MarkerLength(s[k..][i..]).None? {
        assert s[k..][i..] == s[i + k..];
      }
      DefangedIsMarkerFree(s[k..]);
      assert d[n..] == DefangFences(s[k..]);
      forall i | 0 <= i < |d| ensures MarkerLength(d[i..]).None? {
        if i >= n {
          assert d[i..] == d[n..][i - n..];
        } else if StartsWith(s, FENCE) {
          assert d[i..][0] == BROKEN[i];
        } else if MarkerLength(d).Some? {
          MarkerAsBefore(s);
        }
      }
    }
  }

  /** Model prose, made safe: no marker is left in it anywhere, and a fence exactly where the text it was made from has
      a run of backticks longer than three and two more than a multiple of three; a text with neither reads as it was
      written. */
  lemma {:induction false} ProseIsClean(text: string)
    ensures MarkerFree(ModelProse(text))
    ensures HasFence(ModelProse(text)) <==> OddRun(Stripped(text))
    ensures MarkerFree(text) ==> Unspaced(ModelProse(text)) == Unspaced(text)
    ensures MarkerFree(text) && !HasFence(text) ==> ModelProse(text) == text
  {
    hide MarkerFree, HasFence, OddRun, Unspaced, DefangFences, Stripped;
    StrippedIsMarkerFree(text);
    DefangedIsMarkerFree(Stripped(text));
    FenceLeftExactly(Stripped(text));
    ReadsAsBefore(Stripped(text));
    if !HasFence(text) {
      NoFenceNoChange(text);
    }
  }

  lemma {:induction false} NoFenceNoChange(s: string)
    requires !HasFence(s)
    ensures DefangFences(s) == s
    decreases |s|
  {
    if s != "" {
      NoFenceNoChange(s[1..]);
      assert s == [s[0]] + s[1..];
    }
  }
}
