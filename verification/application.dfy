/** What a patch means: applying its hunks to the old lines gives the new ones. */
module Application {
  import opened Text
  import opened DiffParse
  import opened Geometry

  /** The lines a body writes when read against the old lines from index o; None when a kept or
      deleted line is not the old line standing there. */
  function ApplyBody(body: seq<string>, before: seq<string>, o: nat): Option<seq<string>> {
    if body == [] then Some([])
    else
      var line := body[0];
      if line != "" && line[0] == '\\' then ApplyBody(body[1..], before, o)
      else if line != "" && line[0] == '+' then Prepend([line[1..]], ApplyBody(body[1..], before, o))
      else if o >= |before| || before[o] != Unmarked(line) then None
      else Prepend(if line != "" && line[0] == '-' then [] else [before[o]], ApplyBody(body[1..], before, o + 1))
  }

  function Prepend(lines: seq<string>, rest: Option<seq<string>>): Option<seq<string>> {
    match rest
    case None => None
    case Some(r) => Some(lines + r)
  }

  /** Applying hunks when o old lines have been consumed and n new lines written. */
  function ApplyFrom(hs: seq<Hunk>, before: seq<string>, o: nat, n: nat): Option<seq<string>>
    requires o <= |before|
    decreases |hs|
  {
    if hs == [] then Some(before[o..])
    else
      var o', n': int := hs[0].FirstOld() - 1, hs[0].FirstNew() - 1;
      if !(o <= o' <= |before| && o' - o == n' - n) then None
      else
        match ApplyBody(hs[0].body, before, o')
        case None => None
        case Some(written) =>
          var end := o' + OldCount(hs[0].body);
          if end > |before| then None
          else Prepend(before[o..o'] + written, ApplyFrom(hs[1..], before, end, n' + NewCount(hs[0].body)))
  }

  function Apply(hs: seq<Hunk>, before: seq<string>): Option<seq<string>> {
    ApplyFrom(hs, before, 0, 0)
  }

  // ----- The same, said of both files at once -----

  /** Each body line agrees with the file it is numbered in. */
  predicate BodyFits(body: seq<string>, before: seq<string>, head: seq<string>, o: nat, n: nat)
    decreases |body|
  {
    if body == [] then o <= |before| && n <= |head|
    else
      var line := body[0];
      && (OldWidth(line) == 1 ==> o < |before| && before[o] == Unmarked(line))
      && (NewWidth(line) == 1 ==> n < |head| && head[n] == Unmarked(line))
      && BodyFits(body[1..], before, head, o + OldWidth(line), n + NewWidth(line))
  }

  /** The files hold the same k lines from o and n on. */
  predicate Agree(before: seq<string>, head: seq<string>, o: nat, n: nat, k: nat) {
    && o + k <= |before| && n + k <= |head|
    && forall i :: o <= i < o + k ==> before[i] == head[i - o + n]
  }

  /** From (o, n) on, the hunks account for every difference between the two files. */
  predicate Turns(hs: seq<Hunk>, before: seq<string>, head: seq<string>, o: nat, n: nat)
    decreases |hs|
  {
    if hs == [] then
      o <= |before| && |before| - o == |head| - n && Agree(before, head, o, n, |before| - o)
    else
      var o', n': int := hs[0].FirstOld() - 1, hs[0].FirstNew() - 1;
      && o <= o' && o' - o == n' - n && Agree(before, head, o, n, o' - o)
      && BodyFits(hs[0].body, before, head, o', n')
      && Turns(hs[1..], before, head, o' + OldCount(hs[0].body), n' + NewCount(hs[0].body))
  }

  lemma {:induction false} AgreeIsSlice(before: seq<string>, head: seq<string>, o: nat, n: nat, k: nat)
    requires o + k <= |before| && n + k <= |head|
    ensures Agree(before, head, o, n, k) <==> before[o..o + k] == head[n..n + k]
  {
    if before[o..o + k] == head[n..n + k] {
      forall i | o <= i < o + k ensures before[i] == head[i - o + n] {
        assert before[o..o + k][i - o] == before[i] && head[n..n + k][i - o] == head[i - o + n];
      }
    }
  }

  lemma {:induction false} FitsBounds(body: seq<string>, before: seq<string>, head: seq<string>, o: nat, n: nat)
    requires BodyFits(body, before, head, o, n)
    ensures o + OldCount(body) <= |before| && n + NewCount(body) <= |head|
    decreases |body|
  {
    if body != [] {
      FitsBounds(body[1..], before, head, o + OldWidth(body[0]), n + NewWidth(body[0]));
    }
  }

  lemma {:induction false} ApplyBodyIsFit(body: seq<string>, before: seq<string>, head: seq<string>, o: nat, n: nat)
    requires o <= |before| && n + NewCount(body) <= |head|
    ensures ApplyBody(body, before, o).Some? ==> |ApplyBody(body, before, o).value| == NewCount(body) && o + OldCount(body) <= |before|
    ensures BodyFits(body, before, head, o, n) <==> ApplyBody(body, before, o) == Some(head[n..n + NewCount(body)])
    decreases |body|
  {
    if body == [] {
      assert head[n..n] == [];
    } else {
      var line, below := body[0], body[1..];
      var w, v := OldWidth(line), NewWidth(line);
      if o + w <= |before| {
        ApplyBodyIsFit(below, before, head, o + w, n + v);
        var rest := head[n + v..n + v + NewCount(below)];
        if v == 1 {
          assert head[n..n + NewCount(body)] == [head[n]] + rest;
          FirstMeets(Unmarked(line), ApplyBody(below, before, o + w), head[n], rest);
        } else {
          assert [] + rest == rest;
          assert ApplyBody(below, before, o + w).Some? ==>
            [] + ApplyBody(below, before, o + w).value == ApplyBody(below, before, o + w).value;
        }
      }
    }
  }

  lemma {:induction false} FirstMeets(x: string, tail: Option<seq<string>>, y: string, rest: seq<string>)
    ensures Prepend([x], tail) == Some([y] + rest) <==> x == y && tail == Some(rest)
  {
    if tail.Some? && [x] + tail.value == [y] + rest {
      assert ([x] + tail.value)[0] == x && ([y] + rest)[0] == y;
      assert ([x] + tail.value)[1..] == tail.value && ([y] + rest)[1..] == rest;
    }
  }

  /** The two readings agree: hunks turn one file into the other exactly when applying them
      to the first writes the second. */
  lemma {:induction false} ApplyIsTurns(hs: seq<Hunk>, before: seq<string>, head: seq<string>, o: nat, n: nat)
    requires o <= |before| && n <= |head|
    ensures Turns(hs, before, head, o, n) <==> ApplyFrom(hs, before, o, n) == Some(head[n..])
    decreases |hs|
  {
    if hs == [] {
      assert before[o..] == head[n..] ==> |before[o..]| == |head[n..]|;
      if |before| - o == |head| - n {
        AgreeIsSlice(before, head, o, n, |before| - o);
        assert before[o..] == before[o..|before|] && head[n..] == head[n..|head|];
      }
    } else {
      var h := hs[0];
      var o', n': int := h.FirstOld() - 1, h.FirstNew() - 1;
      if o <= o' <= |before| && o' - o == n' - n {
        ApplyStep(hs, before, head, o, n);
      }
    }
  }

  lemma {:induction false} ApplyStep(hs: seq<Hunk>, before: seq<string>, head: seq<string>, o: nat, n: nat)
    requires hs != [] && n <= |head|
    requires o <= hs[0].FirstOld() - 1 <= |before| && hs[0].FirstOld() - 1 - o == hs[0].FirstNew() - 1 - n
    ensures Turns(hs, before, head, o, n) <==> ApplyFrom(hs, before, o, n) == Some(head[n..])
    decreases |hs|, 1
  {
    var h := hs[0];
    var o', n' := h.FirstOld() - 1, h.FirstNew() - 1;
    var end, end' := o' + OldCount(h.body), n' + NewCount(h.body);
    if end' <= |head| {
      ApplyStepInside(hs, before, head, o, n);
    } else {
      if Turns(hs, before, head, o, n) {
        FitsBounds(h.body, before, head, o', n');
      }
      WrittenLength(h.body, before, o');
      hide ApplyBody, Turns, NewCount, OldCount;
      assert ApplyFrom(hs, before, o, n).Some? ==> |ApplyFrom(hs, before, o, n).value| >= o' - o + NewCount(h.body);
    }
  }

  lemma {:induction false} ApplyStepInside(hs: seq<Hunk>, before: seq<string>, head: seq<string>, o: nat, n: nat)
    requires hs != []
    requires o <= hs[0].FirstOld() - 1 <= |before| && hs[0].FirstOld() - 1 - o == hs[0].FirstNew() - 1 - n
    requires hs[0].FirstNew() - 1 + NewCount(hs[0].body) <= |head|
    ensures Turns(hs, before, head, o, n) <==> ApplyFrom(hs, before, o, n) == Some(head[n..])
    decreases |hs|, 0
  {
    hide Agree, BodyFits, ApplyBody, OldCount, NewCount;
    var h := hs[0];
    var o', n' := h.FirstOld() - 1, h.FirstNew() - 1;
    var end, end' := o' + OldCount(h.body), n' + NewCount(h.body);
    AgreeIsSlice(before, head, o, n, o' - o);
    ApplyBodyIsFit(h.body, before, head, o', n');
    var written := ApplyBody(h.body, before, o');
    if written.Some? {
      ApplyIsTurns(hs[1..], before, head, end, end');
      PiecesMeet(before[o..o'], written.value, ApplyFrom(hs[1..], before, end, end'), head[n..n'], head[n'..end'], head[end'..]);
      assert head[n..n'] + head[n'..end'] + head[end'..] == head[n..];
    }
  }

  lemma {:induction false} WrittenLength(body: seq<string>, before: seq<string>, o: nat)
    ensures ApplyBody(body, before, o).Some? ==> |ApplyBody(body, before, o).value| == NewCount(body)
    decreases |body|
  {
    if body != [] {
      WrittenLength(body[1..], before, o + OldWidth(body[0]));
    }
  }

  lemma {:induction false} PiecesMeet(a: seq<string>, b: seq<string>, tail: Option<seq<string>>, a': seq<string>, b': seq<string>, c': seq<string>)
    requires |a| == |a'| && |b| == |b'|
    ensures Prepend(a + b, tail) == Some(a' + b' + c') <==> a == a' && b == b' && tail == Some(c')
  {
    if Prepend(a + b, tail) == Some(a' + b' + c') {
      PrefixesMeet(a, b, tail.value, a', b', c');
    }
  }

  lemma {:induction false} PrefixesMeet<T>(a: seq<T>, b: seq<T>, c: seq<T>, a': seq<T>, b': seq<T>, c': seq<T>)
    requires (a + b) + c == (a' + b') + c' && |a| == |a'| && |b| == |b'|
    ensures a == a' && b == b' && c == c'
  {
    var s := (a + b) + c;
    assert a == s[..|a|] && a' == s[..|a|];
    assert b == s[|a|..|a| + |b|] && b' == s[|a|..|a| + |b|];
    assert c == s[|a| + |b|..] && c' == s[|a| + |b|..];
  }

  lemma {:induction false} ApplyMeansTurns(hs: seq<Hunk>, before: seq<string>, head: seq<string>)
    ensures Apply(hs, before) == Some(head) <==> Turns(hs, before, head, 0, 0)
  {
    ApplyIsTurns(hs, before, head, 0, 0);
    assert head[0..] == head;
  }
}
