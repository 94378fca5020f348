/**
 * Sequence helpers, stated over sequences so that they serve both bytes
 * and characters. `Split` specifies the pieces the byte loop of `onData`
 * (connection.js lines 175-194) and the `indexOf` walk of `parseCmd`
 * (lines 223-256) produce; the code itself never calls `split`. `Join`
 * and `IndexOf` model the builtins `join` (line 322) and `indexOf`
 * (line 234).
 * `Split` and `Join` peel off the LAST element, which is the order in
 * which the imperative loops of the model consume their input.
 */
module Sequences {

  /** The pieces of `s` between occurrences of `sep`; `Split([], sep) == [[]]`. */
  function Split<T(==)>(s: seq<T>, sep: T): (pieces: seq<seq<T>>)
    ensures |pieces| >= 1
    decreases |s|
  {
    if s == [] then [[]]
    else
      var init := Split(s[..|s| - 1], sep);
      if s[|s| - 1] == sep then init + [[]]
      else init[..|init| - 1] + [init[|init| - 1] + [s[|s| - 1]]]
  }

  /** No piece holds the separator. */
  lemma {:induction false} SplitFree<T>(s: seq<T>, sep: T)
    ensures forall k :: 0 <= k < |Split(s, sep)| ==> sep !in Split(s, sep)[k]
    decreases |s|
  {
    if s != [] {
      SplitFree(s[..|s| - 1], sep);
    }
  }

  /** `Array.prototype.join`: the parts with one `sep` between neighbours. */
  function Join<T>(parts: seq<seq<T>>, sep: T): seq<T>
    decreases |parts|
  {
    if |parts| == 0 then []
    else if |parts| == 1 then parts[0]
    else Join(parts[..|parts| - 1], sep) + [sep] + parts[|parts| - 1]
  }

  /** `indexOf(x, from)`: the first position at or after `from` holding `x`, or -1. */
  function IndexOf<T(==)>(s: seq<T>, x: T, from: nat): (r: int)
    ensures r == -1 || (from <= r < |s| && s[r] == x)
    ensures r == -1 ==> forall k :: from <= k < |s| ==> s[k] != x
    ensures r != -1 ==> forall k :: from <= k < r ==> s[k] != x
    decreases |s| - from
  {
    if from >= |s| then -1
    else if s[from] == x then from
    else IndexOf(s, x, from + 1)
  }

  /** Splitting one more element onto the end (the step of the definition, stated for `s + [x]`). */
  lemma SplitSnoc<T>(s: seq<T>, x: T, sep: T)
    ensures var init := Split(s, sep);
      Split(s + [x], sep) ==
        if x == sep then init + [[]]
        else init[..|init| - 1] + [init[|init| - 1] + [x]]
  {
    assert (s + [x])[..|s|] == s;
  }

  /** A sequence without the separator is one piece. */
  lemma {:induction false} SplitNoSep<T>(s: seq<T>, sep: T)
    requires sep !in s
    ensures Split(s, sep) == [s]
    decreases |s|
  {
    if s != [] {
      SplitNoSep(s[..|s| - 1], sep);
      assert s[..|s| - 1] + [s[|s| - 1]] == s;
    }
  }

  /** The pieces of `a + b` from those of `a` and of `b`: the last of `pa` fuses with the first of `pb`. */
  function Fuse<T>(pa: seq<seq<T>>, pb: seq<seq<T>>): seq<seq<T>>
    requires |pa| >= 1 && |pb| >= 1
  {
    pa[..|pa| - 1] + [pa[|pa| - 1] + pb[0]] + pb[1..]
  }

  lemma FuseNewPiece<T>(pa: seq<seq<T>>, pb: seq<seq<T>>)
    requires |pa| >= 1 && |pb| >= 1
    ensures Fuse(pa, pb + [[]]) == Fuse(pa, pb) + [[]]
  {
    assert (pb + [[]])[1..] == pb[1..] + [[]];
  }

  lemma FuseExtendLast<T>(pa: seq<seq<T>>, pb: seq<seq<T>>, x: T)
    requires |pa| >= 1 && |pb| >= 1
    ensures var f := Fuse(pa, pb);
      var pb' := pb[..|pb| - 1] + [pb[|pb| - 1] + [x]];
      Fuse(pa, pb') == f[..|f| - 1] + [f[|f| - 1] + [x]]
  {
    var pb' := pb[..|pb| - 1] + [pb[|pb| - 1] + [x]];
    var f := Fuse(pa, pb);
    if |pb| == 1 {
      assert f == pa[..|pa| - 1] + [pa[|pa| - 1] + pb[0]];
      assert pb' == [pb[0] + [x]] && pb'[1..] == [];
      assert pa[|pa| - 1] + (pb[0] + [x]) == (pa[|pa| - 1] + pb[0]) + [x];
    } else {
      assert f[..|f| - 1] == pa[..|pa| - 1] + [pa[|pa| - 1] + pb[0]] + pb[1..|pb| - 1];
      assert pb'[1..] == pb[1..|pb| - 1] + [pb[|pb| - 1] + [x]];
    }
  }

  /**
   * Splitting a concatenation: the last piece of `a` and the first piece of
   * `b` fuse, everything else is kept in order.
   */
  lemma {:induction false} SplitConcat<T>(a: seq<T>, b: seq<T>, sep: T)
    ensures Split(a + b, sep) == Fuse(Split(a, sep), Split(b, sep))
    decreases |b|
  {
    var pa := Split(a, sep);
    if b == [] {
      assert a + b == a;
      assert Split(b, sep) == [[]];
      assert pa[|pa| - 1] + [] == pa[|pa| - 1];
      assert pa[..|pa| - 1] + [pa[|pa| - 1]] == pa;
    } else {
      var b', x := b[..|b| - 1], b[|b| - 1];
      assert b == b' + [x];
      assert a + b == (a + b') + [x];
      SplitConcat(a, b', sep);
      SplitSnoc(a + b', x, sep);
      SplitSnoc(b', x, sep);
      if x == sep {
        FuseNewPiece(pa, Split(b', sep));
      } else {
        FuseExtendLast(pa, Split(b', sep), x);
      }
    }
  }

  /** A separator between `a` and `b` splits into the pieces of `a` followed by the pieces of `b`. */
  lemma SplitAtSep<T>(a: seq<T>, b: seq<T>, sep: T)
    ensures Split(a + [sep] + b, sep) == Split(a, sep) + Split(b, sep)
  {
    SplitSnoc(a, sep, sep);
    SplitConcat(a + [sep], b, sep);
    var pa, pb := Split(a, sep), Split(b, sep);
    assert (pa + [[]])[..|pa|] == pa;
    assert Fuse(pa + [[]], pb) == pa + [[] + pb[0]] + pb[1..];
    assert [] + pb[0] == pb[0];
    assert [pb[0]] + pb[1..] == pb;
  }

  /** What `indexOf` finds tells how the rest of the sequence splits. */
  lemma SplitAtIndexOf<T>(s: seq<T>, sep: T, from: nat)
    requires from <= |s|
    ensures IndexOf(s, sep, from) == -1 ==> Split(s[from..], sep) == [s[from..]]
    ensures var e := IndexOf(s, sep, from);
      e != -1 ==> Split(s[from..], sep) == [s[from..e]] + Split(s[e + 1..], sep)
  {
    var e := IndexOf(s, sep, from);
    if e == -1 {
      SplitNoSep(s[from..], sep);
    } else {
      assert s[from..] == s[from..e] + [sep] + s[e + 1..];
      SplitAtSep(s[from..e], s[e + 1..], sep);
      SplitNoSep(s[from..e], sep);
    }
  }

  /** Joining the pieces restores the sequence. */
  lemma {:induction false} JoinSplit<T>(s: seq<T>, sep: T)
    ensures Join(Split(s, sep), sep) == s
    decreases |s|
  {
    if s != [] {
      var s', x := s[..|s| - 1], s[|s| - 1];
      assert s == s' + [x];
      JoinSplit(s', sep);
      var init := Split(s', sep);
      if x == sep {
        assert (init + [[]])[..|init|] == init;
      } else {
        var p := init[..|init| - 1] + [init[|init| - 1] + [x]];
        if |init| > 1 {
          assert p[..|p| - 1] == init[..|init| - 1];
        }
      }
    }
  }

  /** Parts free of the separator come back unchanged from `Split(Join(parts))`. */
  lemma {:induction false} SplitJoin<T>(parts: seq<seq<T>>, sep: T)
    requires |parts| >= 1
    requires forall k :: 0 <= k < |parts| ==> sep !in parts[k]
    ensures Split(Join(parts, sep), sep) == parts
    decreases |parts|
  {
    var n := |parts|;
    if n == 1 {
      SplitNoSep(parts[0], sep);
    } else {
      SplitJoin(parts[..n - 1], sep);
      SplitAtSep(Join(parts[..n - 1], sep), parts[n - 1], sep);
      SplitNoSep(parts[n - 1], sep);
      assert parts[..n - 1] + [parts[n - 1]] == parts;
    }
  }

  /** There is more than one piece exactly when the separator occurs. */
  lemma SplitCountsSep<T>(s: seq<T>, sep: T)
    ensures |Split(s, sep)| > 1 <==> sep in s
  {
    var p := Split(s, sep);
    JoinSplit(s, sep);
    if |p| == 1 {
      assert s == p[0];
    } else {
      assert s == Join(p[..|p| - 1], sep) + [sep] + p[|p| - 1];
      assert s[|Join(p[..|p| - 1], sep)|] == sep;
    }
  }

  /** Every element of a join is the separator or an element of one of the parts. */
  lemma {:induction false} JoinMembers<T>(parts: seq<seq<T>>, sep: T, x: T)
    requires x in Join(parts, sep)
    ensures x == sep || exists k :: 0 <= k < |parts| && x in parts[k]
    decreases |parts|
  {
    var n := |parts|;
    if n > 1 {
      var init := parts[..n - 1];
      if x in Join(init, sep) && x != sep {
        JoinMembers(init, sep, x);
        var k :| 0 <= k < |init| && x in init[k];
        assert x in parts[k];
      } else if x != sep {
        assert x in parts[n - 1];
      }
    }
  }

  /** Concatenation is associative. */
  lemma Associative<T>(a: seq<T>, b: seq<T>, c: seq<T>)
    ensures (a + b) + c == a + (b + c)
  {
  }

  /** Moving the front element of `back` to the end of `front` keeps their concatenation. */
  lemma ShiftFront<T>(front: seq<T>, back: seq<T>)
    requires |back| > 0
    ensures front + [back[0]] + back[1..] == front + back
  {
    assert back == [back[0]] + back[1..];
  }

  /** One element more of a prefix, behind a fixed front part. */
  lemma PrefixStep<T>(front: seq<T>, q: seq<T>, n: nat)
    requires n < |q|
    ensures front + q[..n + 1] == front + q[..n] + [q[n]]
  {
    assert q[..n + 1] == q[..n] + [q[n]];
  }
}
