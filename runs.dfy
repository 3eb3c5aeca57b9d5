/**
 * Maximal runs: the non-empty stretches of a sequence that contain no
 * separator, each as long as possible. The same notion splits text into
 * words (separators: whitespace characters) and a docstring's body into
 * paragraphs (separators: blank lines).
 */
module MaximalRuns {
  import opened Sequences

  /** Length of the longest separator-free prefix of `xs`. */
  function RunLength<T>(xs: seq<T>, sep: T -> bool): (n: nat)
    ensures n <= |xs|
    ensures forall i | 0 <= i < n :: !sep(xs[i])
    ensures n < |xs| ==> sep(xs[n])
  {
    if |xs| == 0 || sep(xs[0]) then 0 else 1 + RunLength(xs[1..], sep)
  }

  /** The maximal separator-free runs of `xs`, in order. */
  function Runs<T>(xs: seq<T>, sep: T -> bool): seq<seq<T>>
    decreases |xs|
  {
    if |xs| == 0 then []
    else if sep(xs[0]) then Runs(xs[1..], sep)
    else
      var n := RunLength(xs, sep);
      [xs[..n]] + Runs(xs[n..], sep)
  }

  predicate AllSep<T>(xs: seq<T>, sep: T -> bool) {
    forall i | 0 <= i < |xs| :: sep(xs[i])
  }

  /** A possible run: non-empty and free of separators. */
  predicate IsRun<T>(g: seq<T>, sep: T -> bool) {
    |g| > 0 && forall i | 0 <= i < |g| :: !sep(g[i])
  }

  /** `gaps[0] + gs[0] + gaps[1] + gs[1] + ... + gs[n-1] + gaps[n]`. */
  function Interleave<T>(gaps: seq<seq<T>>, gs: seq<seq<T>>): seq<T>
    requires |gaps| == |gs| + 1
    decreases |gs|
  {
    if |gs| == 0 then gaps[0] else gaps[0] + gs[0] + Interleave(gaps[1..], gs[1..])
  }

  /**
   * `gaps` and `gs` describe a sequence cut into runs: every gap holds
   * separators only, every gap between two runs holds at least one, and
   * every run is non-empty and separator-free. The first and last gaps may
   * be empty.
   */
  predicate IsLayout<T>(gaps: seq<seq<T>>, gs: seq<seq<T>>, sep: T -> bool) {
    && |gaps| == |gs| + 1
    && (forall i | 0 <= i < |gaps| :: AllSep(gaps[i], sep))
    && (forall i | 0 < i < |gs| :: |gaps[i]| > 0)
    && (forall i | 0 <= i < |gs| :: IsRun(gs[i], sep))
  }

  /** The separator stretches around the runs of `xs`, in order. */
  function Gaps<T>(xs: seq<T>, sep: T -> bool): (gaps: seq<seq<T>>)
    ensures |gaps| == |Runs(xs, sep)| + 1
    decreases |xs|
  {
    if |xs| == 0 then [[]]
    else if sep(xs[0]) then
      var g := Gaps(xs[1..], sep);
      [[xs[0]] + g[0]] + g[1..]
    else
      [[]] + Gaps(xs[RunLength(xs, sep)..], sep)
  }

  /** Every run of `xs` is at most `w` long. */
  predicate Bounded<T>(xs: seq<T>, sep: T -> bool, w: nat) {
    forall i | 0 <= i < |Runs(xs, sep)| :: |Runs(xs, sep)[i]| <= w
  }

  /** The concatenation of a sequence of sequences. */
  function Flatten<T>(gs: seq<seq<T>>): seq<T> {
    if |gs| == 0 then [] else gs[0] + Flatten(gs[1..])
  }

  lemma {:induction false} FlattenAppend<T>(a: seq<seq<T>>, b: seq<seq<T>>)
    ensures Flatten(a + b) == Flatten(a) + Flatten(b)
    decreases |a|
  {
    if |a| == 0 {
      assert a + b == b;
    } else {
      assert (a + b)[0] == a[0];
      assert (a + b)[1..] == a[1..] + b;
      FlattenAppend(a[1..], b);
    }
  }

  /** The run at the front of `a + b` stops inside `a` unless `a` is one run. */
  lemma {:induction false} RunLengthAppend<T>(a: seq<T>, b: seq<T>, sep: T -> bool)
    ensures RunLength(a + b, sep) ==
            if RunLength(a, sep) < |a| then RunLength(a, sep) else |a| + RunLength(b, sep)
    decreases |a|
  {
    if |a| == 0 {
      assert a + b == b;
    } else if !sep(a[0]) {
      assert (a + b)[1..] == a[1..] + b;
      RunLengthAppend(a[1..], b, sep);
    }
  }

  /** A separator splits the runs: nothing on its left joins anything on its right. */
  lemma {:induction false} RunsSplitAt<T>(a: seq<T>, x: T, b: seq<T>, sep: T -> bool)
    requires sep(x)
    ensures Runs(a + [x] + b, sep) == Runs(a, sep) + Runs(b, sep)
    decreases |a|
  {
    var s := a + [x] + b;
    if |a| == 0 {
      assert s == [x] + b;
      assert s[1..] == b;
    } else if sep(a[0]) {
      assert s[1..] == a[1..] + [x] + b;
      RunsSplitAt(a[1..], x, b, sep);
    } else {
      var m := RunLength(a, sep);
      assert s == a + ([x] + b);
      RunLengthAppend(a, [x] + b, sep);
      if m < |a| {
        assert s[..m] == a[..m];
        assert s[m..] == a[m..] + [x] + b;
        RunsSplitAt(a[m..], x, b, sep);
      } else {
        assert ([x] + b)[0] == x;
        assert RunLength(s, sep) == m;
        assert s[..m] == a;
        assert s[m..] == [x] + b;
        assert ([x] + b)[1..] == b;
        assert a[..m] == a;
        assert a[m..] == [];
      }
    }
  }

  /** A run followed by nothing, or by a separator, is a run of its own. */
  lemma RunsCons<T>(g: seq<T>, t: seq<T>, sep: T -> bool)
    requires IsRun(g, sep)
    requires |t| == 0 || sep(t[0])
    ensures Runs(g + t, sep) == [g] + Runs(t, sep)
  {
    RunLengthAppend(g, t, sep);
    assert RunLength(g + t, sep) == |g|;
    assert (g + t)[..|g|] == g;
    assert (g + t)[|g|..] == t;
  }

  /** Separators only: no runs at all. */
  lemma {:induction false} RunsAllSep<T>(xs: seq<T>, sep: T -> bool)
    requires AllSep(xs, sep)
    ensures Runs(xs, sep) == []
    decreases |xs|
  {
    if |xs| > 0 {
      RunsAllSep(xs[1..], sep);
    }
  }

  /** Leading separators do not change the runs. */
  lemma {:induction false} RunsDropLeading<T>(a: seq<T>, b: seq<T>, sep: T -> bool)
    requires AllSep(a, sep)
    ensures Runs(a + b, sep) == Runs(b, sep)
    decreases |a|
  {
    if |a| > 0 {
      assert (a + b)[1..] == a[1..] + b;
      RunsDropLeading(a[1..], b, sep);
    } else {
      assert a + b == b;
    }
  }

  /**
   * Uniqueness: whichever way a sequence is laid out as separator gaps and
   * non-empty separator-free groups (with at least one separator between
   * two groups), its runs are exactly those groups.
   */
  lemma {:induction false} RunsOfLayout<T>(gaps: seq<seq<T>>, gs: seq<seq<T>>, sep: T -> bool)
    requires IsLayout(gaps, gs, sep)
    ensures Runs(Interleave(gaps, gs), sep) == gs
    decreases |gs|
  {
    if |gs| == 0 {
      RunsAllSep(gaps[0], sep);
    } else {
      var tail := Interleave(gaps[1..], gs[1..]);
      assert IsLayout(gaps[1..], gs[1..], sep) by {
        assert forall i | 0 < i < |gs[1..]| :: gaps[1..][i] == gaps[i + 1];
      }
      RunsOfLayout(gaps[1..], gs[1..], sep);
      assert |tail| == 0 || sep(tail[0]) by {
        if |gs| > 1 {
          assert tail == gaps[1] + (gs[1] + Interleave(gaps[2..], gs[2..])) by {
            assert gaps[1..][1..] == gaps[2..];
            assert gs[1..][1..] == gs[2..];
          }
          assert |gaps[1]| > 0;
          assert tail[0] == gaps[1][0];
        } else {
          assert tail == gaps[1];
          if |tail| > 0 {
            assert tail[0] == gaps[1][0];
          }
        }
      }
      RunsCons(gs[0], tail, sep);
      assert Interleave(gaps, gs) == gaps[0] + (gs[0] + tail);
      RunsDropLeading(gaps[0], gs[0] + tail, sep);
      assert gs == [gs[0]] + gs[1..];
    }
  }

  /** The gaps before a leading separator are not empty. */
  lemma GapsLeadingSep<T>(xs: seq<T>, sep: T -> bool)
    requires |xs| > 0 && sep(xs[0])
    ensures |Gaps(xs, sep)[0]| > 0
  {
  }

  /** A separator in front of a layout joins its first gap. */
  lemma LayoutConsSep<T>(x: T, g: seq<seq<T>>, gs: seq<seq<T>>, sep: T -> bool)
    requires sep(x)
    requires IsLayout(g, gs, sep)
    ensures IsLayout([[x] + g[0]] + g[1..], gs, sep)
    ensures Interleave([[x] + g[0]] + g[1..], gs) == [x] + Interleave(g, gs)
  {
    LayoutConsSepShape(x, g, gs, sep);
    InterleaveConsGap(x, g, gs);
  }

  lemma LayoutConsSepShape<T>(x: T, g: seq<seq<T>>, gs: seq<seq<T>>, sep: T -> bool)
    requires sep(x)
    requires IsLayout(g, gs, sep)
    ensures IsLayout([[x] + g[0]] + g[1..], gs, sep)
  {
    var h := [x] + g[0];
    var gaps := [h] + g[1..];
    ConsIndex(x, g[0]);
    assert AllSep(h, sep) by {
      assert forall i | 1 <= i < |h| :: h[i] == g[0][i - 1];
    }
    ConsIndex(h, g[1..]);
    assert forall i | 1 <= i < |gaps| :: gaps[i] == g[i];
  }

  /** Putting `x` in front of the first gap puts it in front of the interleaving. */
  lemma InterleaveConsGap<T>(x: T, g: seq<seq<T>>, gs: seq<seq<T>>)
    requires |g| == |gs| + 1
    ensures Interleave([[x] + g[0]] + g[1..], gs) == [x] + Interleave(g, gs)
  {
    var h := [x] + g[0];
    var gaps := [h] + g[1..];
    ConsIndex(h, g[1..]);
    if |gs| > 0 {
      var tail := Interleave(g[1..], gs[1..]);
      assert Interleave(gaps, gs) == (h + gs[0]) + tail;
      AppendAssoc([x], g[0], gs[0]);
      AppendAssoc([x], g[0] + gs[0], tail);
    }
  }

  /** A run in front of a layout whose first gap separates it is a new first run. */
  lemma LayoutConsRun<T>(r: seq<T>, g: seq<seq<T>>, gs: seq<seq<T>>, sep: T -> bool)
    requires IsRun(r, sep)
    requires IsLayout(g, gs, sep)
    requires |gs| > 0 ==> |g[0]| > 0
    ensures IsLayout([[]] + g, [r] + gs, sep)
    ensures Interleave([[]] + g, [r] + gs) == r + Interleave(g, gs)
  {
    LayoutConsRunShape(r, g, gs, sep);
    InterleaveCons([], r, g, gs);
    assert [] + r == r;
  }

  /** Interleaving a gap and a run in front of a layout puts them in front of its sequence. */
  lemma InterleaveCons<T>(h: seq<T>, r: seq<T>, g: seq<seq<T>>, gs: seq<seq<T>>)
    requires |g| == |gs| + 1
    ensures Interleave([h] + g, [r] + gs) == (h + r) + Interleave(g, gs)
  {
    var gaps, rs := [h] + g, [r] + gs;
    ConsIndex(h, g);
    ConsIndex(r, gs);
    assert Interleave(gaps, rs) == gaps[0] + rs[0] + Interleave(gaps[1..], rs[1..]);
  }

  lemma LayoutConsRunShape<T>(r: seq<T>, g: seq<seq<T>>, gs: seq<seq<T>>, sep: T -> bool)
    requires IsRun(r, sep)
    requires IsLayout(g, gs, sep)
    requires |gs| > 0 ==> |g[0]| > 0
    ensures IsLayout([[]] + g, [r] + gs, sep)
  {
    var gaps, rs := [[]] + g, [r] + gs;
    ConsIndex([], g);
    ConsIndex(r, gs);
    forall i | 0 <= i < |gaps| ensures AllSep(gaps[i], sep) {
      if i > 0 {
        assert gaps[i] == g[i - 1];
      }
    }
    forall i | 0 < i < |rs| ensures |gaps[i]| > 0 {
      assert gaps[i] == g[i - 1];
    }
    forall i | 0 <= i < |rs| ensures IsRun(rs[i], sep) {
      if i > 0 {
        assert rs[i] == gs[i - 1];
      }
    }
  }

  /** The concatenation of a first sequence and the rest. */
  lemma FlattenCons<T>(g: seq<T>, gs: seq<seq<T>>)
    ensures Flatten([g] + gs) == g + Flatten(gs)
  {
    ConsIndex(g, gs);
  }

  /** Non-empty sequences with a non-empty one in front are still all non-empty. */
  lemma NonEmptyCons<T>(g: seq<T>, gs: seq<seq<T>>)
    requires |g| > 0
    requires forall i | 0 <= i < |gs| :: |gs[i]| > 0
    ensures forall i | 0 <= i < |[g] + gs| :: |([g] + gs)[i]| > 0
  {
    ConsIndex(g, gs);
  }

  /** A run on its own is its only run. */
  lemma RunsOfRun<T>(g: seq<T>, sep: T -> bool)
    requires IsRun(g, sep)
    ensures Runs(g, sep) == [g]
  {
    RunsCons(g, [], sep);
    assert g + [] == g;
  }

  /**
   * Existence: every sequence is laid out as its gaps and its runs, so the
   * runs are non-empty, separator-free and separated by separators, and
   * nothing of `xs` is lost or reordered.
   */
  lemma {:induction false} LayoutOfRuns<T>(xs: seq<T>, sep: T -> bool)
    ensures IsLayout(Gaps(xs, sep), Runs(xs, sep), sep)
    ensures Interleave(Gaps(xs, sep), Runs(xs, sep)) == xs
    decreases |xs|
  {
    if |xs| == 0 {
    } else if sep(xs[0]) {
      LayoutOfRuns(xs[1..], sep);
      LayoutConsSep(xs[0], Gaps(xs[1..], sep), Runs(xs[1..], sep), sep);
      assert xs == [xs[0]] + xs[1..];
    } else {
      var n := RunLength(xs, sep);
      var rest := xs[n..];
      LayoutOfRuns(rest, sep);
      if |Runs(rest, sep)| > 0 {
        assert |rest| > 0 && sep(rest[0]);
        GapsLeadingSep(rest, sep);
      }
      LayoutConsRun(xs[..n], Gaps(rest, sep), Runs(rest, sep), sep);
      assert xs == xs[..n] + rest;
    }
  }

  /** The runs are the unique grouping of `xs` into a layout. */
  lemma RunsCharacterized<T>(xs: seq<T>, gs: seq<seq<T>>, sep: T -> bool)
    ensures gs == Runs(xs, sep) <==>
            exists gaps :: IsLayout(gaps, gs, sep) && Interleave(gaps, gs) == xs
  {
    if gs == Runs(xs, sep) {
      LayoutOfRuns(xs, sep);
    }
    if exists gaps :: IsLayout(gaps, gs, sep) && Interleave(gaps, gs) == xs {
      var gaps :| IsLayout(gaps, gs, sep) && Interleave(gaps, gs) == xs;
      RunsOfLayout(gaps, gs, sep);
    }
  }

  /** A prefix has no longer runs than the whole. */
  lemma {:induction false} BoundedPrefix<T>(a: seq<T>, b: seq<T>, sep: T -> bool, w: nat)
    requires Bounded(a + b, sep, w)
    ensures Bounded(a, sep, w)
    decreases |a|
  {
    var s := a + b;
    if |a| == 0 {
    } else if sep(a[0]) {
      assert s[0] == a[0];
      assert s[1..] == a[1..] + b;
      assert Runs(s, sep) == Runs(a[1..] + b, sep);
      BoundedPrefix(a[1..], b, sep, w);
    } else {
      var m := RunLength(a, sep);
      RunLengthAppend(a, b, sep);
      assert s[0] == a[0];
      if m < |a| {
        assert s[..m] == a[..m];
        assert s[m..] == a[m..] + b;
        assert Runs(s, sep) == [a[..m]] + Runs(a[m..] + b, sep);
        BoundedCons(s, a[..m], a[m..] + b, sep, w);
        BoundedPrefix(a[m..], b, sep, w);
        assert Runs(a, sep) == [a[..m]] + Runs(a[m..], sep);
        BoundedCons(a, a[..m], a[m..], sep, w);
      } else {
        assert a[..m] == a;
        assert Runs(a, sep) == [a] + Runs(a[m..], sep);
        assert a[m..] == [];
        assert |Runs(s, sep)[0]| <= w;
      }
    }
  }

  /** When the runs of `s` are `x` followed by the runs of `t`, `s` is bounded iff `x` and `t` are. */
  lemma BoundedCons<T>(s: seq<T>, x: seq<T>, t: seq<T>, sep: T -> bool, w: nat)
    requires Runs(s, sep) == [x] + Runs(t, sep)
    ensures Bounded(s, sep, w) <==> |x| <= w && Bounded(t, sep, w)
  {
    ConsIndex(x, Runs(t, sep));
  }

  /** A suffix has no longer runs than the whole. */
  lemma {:induction false} BoundedSuffix<T>(a: seq<T>, b: seq<T>, sep: T -> bool, w: nat)
    requires Bounded(a + b, sep, w)
    ensures Bounded(b, sep, w)
    decreases |a|
  {
    var s := a + b;
    if |a| == 0 {
      assert s == b;
    } else if sep(a[0]) {
      assert s[0] == a[0];
      assert s[1..] == a[1..] + b;
      assert Runs(s, sep) == Runs(a[1..] + b, sep);
      BoundedSuffix(a[1..], b, sep, w);
    } else {
      var m := RunLength(a, sep);
      RunLengthAppend(a, b, sep);
      var n := RunLength(s, sep);
      assert s[0] == a[0];
      assert Runs(s, sep) == [s[..n]] + Runs(s[n..], sep);
      BoundedCons(s, s[..n], s[n..], sep, w);
      if m < |a| {
        assert s[n..] == a[m..] + b;
        BoundedSuffix(a[m..], b, sep, w);
      } else {
        var r := RunLength(b, sep);
        assert s[n..] == b[r..];
        if r == 0 {
          assert b[r..] == b;
        } else {
          assert Runs(b, sep) == [b[..r]] + Runs(b[r..], sep);
        }
      }
    }
  }

  /** Runs on either side of a separator are bounded iff the whole is. */
  lemma BoundedSplitAt<T>(a: seq<T>, x: T, b: seq<T>, sep: T -> bool, w: nat)
    requires sep(x)
    ensures Bounded(a + [x] + b, sep, w) <==> Bounded(a, sep, w) && Bounded(b, sep, w)
  {
    RunsSplitAt(a, x, b, sep);
    var ra, rb := Runs(a, sep), Runs(b, sep);
    assert forall i | 0 <= i < |ra| :: (ra + rb)[i] == ra[i];
    assert forall i | 0 <= i < |rb| :: (ra + rb)[|ra| + i] == rb[i];
  }

  /** A slice has no longer runs than the whole. */
  lemma BoundedSlice<T>(xs: seq<T>, i: nat, j: nat, sep: T -> bool, w: nat)
    requires i <= j <= |xs|
    requires Bounded(xs, sep, w)
    ensures Bounded(xs[i..j], sep, w)
  {
    assert xs == xs[..j] + xs[j..];
    BoundedPrefix(xs[..j], xs[j..], sep, w);
    assert xs[..j] == xs[..i] + xs[i..j];
    BoundedSuffix(xs[..i], xs[i..j], sep, w);
  }

  /** Every element of every run is an element of `xs`. */
  lemma {:induction false} RunsFrom<T>(xs: seq<T>, sep: T -> bool)
    ensures forall k, j | 0 <= k < |Runs(xs, sep)| && 0 <= j < |Runs(xs, sep)[k]| :: Runs(xs, sep)[k][j] in xs
    decreases |xs|
  {
    if |xs| == 0 {
    } else if sep(xs[0]) {
      RunsFrom(xs[1..], sep);
      assert forall y | y in xs[1..] :: y in xs;
    } else {
      var n := RunLength(xs, sep);
      var r := Runs(xs, sep);
      RunsFrom(xs[n..], sep);
      assert r == [xs[..n]] + Runs(xs[n..], sep);
      forall k, j | 0 <= k < |r| && 0 <= j < |r[k]| ensures r[k][j] in xs {
        if k == 0 {
          assert r[0][j] == xs[j];
        } else {
          assert r[k] == Runs(xs[n..], sep)[k - 1];
          assert r[k][j] in xs[n..];
        }
      }
    }
  }

  /** There are no runs exactly when every element is a separator. */
  lemma {:induction false} RunsEmpty<T>(xs: seq<T>, sep: T -> bool)
    ensures Runs(xs, sep) == [] <==> AllSep(xs, sep)
    decreases |xs|
  {
    if |xs| == 0 {
    } else if sep(xs[0]) {
      RunsEmpty(xs[1..], sep);
      assert AllSep(xs[1..], sep) ==> AllSep(xs, sep) by {
        if AllSep(xs[1..], sep) {
          forall i | 0 <= i < |xs| ensures sep(xs[i]) {
            if i > 0 { assert xs[i] == xs[1..][i - 1]; }
          }
        }
      }
    } else {
      assert |Runs(xs, sep)| > 0;
    }
  }
}
