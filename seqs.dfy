/** Sequence operations that the dashboard code takes from JavaScript's
    `Array.prototype.filter` and `String.prototype.split`, with the facts the
    rest of the model needs about them. */
module Seqs {

  /** `xs` is obtained from `ys` by deleting elements: the elements of `xs`
      occur in `ys` in the same order. */
  predicate IsSubsequence<T(==)>(xs: seq<T>, ys: seq<T>)
    decreases |ys|
  {
    xs == [] ||
    (ys != [] &&
     ((xs[0] == ys[0] && IsSubsequence(xs[1..], ys[1..])) || IsSubsequence(xs, ys[1..])))
  }

  /** `Array.prototype.filter`: the elements of `s` that satisfy `p`, in order. */
  function Filter<T(!new)>(p: T -> bool, s: seq<T>): (r: seq<T>)
    ensures |r| <= |s|
    decreases |s|
  {
    if s == [] then []
    else if p(s[0]) then [s[0]] + Filter(p, s[1..])
    else Filter(p, s[1..])
  }

  /** An element is kept exactly when it is in `s` and passes `p`. */
  lemma {:induction false} FilterMembers<T(!new)>(p: T -> bool, s: seq<T>, x: T)
    ensures x in Filter(p, s) <==> x in s && p(x)
    decreases |s|
  {
    if s != [] {
      FilterMembers(p, s[1..], x);
      assert s == [s[0]] + s[1..];
    }
  }

  lemma {:induction false} FilterIsSubsequence<T(!new)>(p: T -> bool, s: seq<T>)
    ensures IsSubsequence(Filter(p, s), s)
    decreases |s|
  {
    if s != [] {
      FilterIsSubsequence(p, s[1..]);
      var r := Filter(p, s);
      if p(s[0]) {
        assert r[0] == s[0] && r[1..] == Filter(p, s[1..]);
      } else {
        assert r == Filter(p, s[1..]);
      }
    }
  }

  lemma {:induction false} FilterAppend<T(!new)>(p: T -> bool, a: seq<T>, b: seq<T>)
    ensures Filter(p, a + b) == Filter(p, a) + Filter(p, b)
    decreases |a|
  {
    if a != [] {
      assert (a + b)[0] == a[0] && (a + b)[1..] == a[1..] + b;
      FilterAppend(p, a[1..], b);
    } else {
      assert a + b == b;
    }
  }

  lemma FilterSnoc<T(!new)>(p: T -> bool, s: seq<T>, x: T)
    ensures Filter(p, s + [x]) == Filter(p, s) + (if p(x) then [x] else [])
  {
    FilterAppend(p, s, [x]);
    assert [x][1..] == [];
  }

  /** Filtering keeps everything exactly when every element passes. */
  lemma {:induction false} FilterKeepsAll<T(!new)>(p: T -> bool, s: seq<T>)
    ensures Filter(p, s) == s <==> forall k :: 0 <= k < |s| ==> p(s[k])
    decreases |s|
  {
    if s != [] {
      var tail := s[1..];
      FilterKeepsAll(p, tail);
      if p(s[0]) {
        assert Filter(p, s) == [s[0]] + Filter(p, tail);
        assert s == [s[0]] + tail;
        assert (forall k :: 0 <= k < |s| ==> p(s[k])) <==> (forall k :: 0 <= k < |tail| ==> p(tail[k])) by {
          assert forall k :: 1 <= k < |s| ==> s[k] == tail[k - 1];
        }
      } else {
        assert |Filter(p, s)| <= |tail| < |s|;
      }
    }
  }

  /** Two predicates that agree on every element select the same elements. */
  lemma {:induction false} FilterCongruent<T(!new)>(p: T -> bool, q: T -> bool, s: seq<T>)
    requires forall k :: 0 <= k < |s| ==> p(s[k]) == q(s[k])
    ensures Filter(p, s) == Filter(q, s)
    decreases |s|
  {
    if s != [] {
      FilterCongruent(p, q, s[1..]);
    }
  }

  /** Number of elements of `s` that satisfy `p`. */
  function Count<T(!new)>(p: T -> bool, s: seq<T>): (n: nat)
    ensures n <= |s|
    decreases |s|
  {
    if s == [] then 0 else Count(p, s[..|s| - 1]) + (if p(s[|s| - 1]) then 1 else 0)
  }

  /** Filtering keeps as many elements as satisfy the predicate. */
  lemma {:induction false} FilterLengthIsCount<T(!new)>(p: T -> bool, s: seq<T>)
    ensures |Filter(p, s)| == Count(p, s)
    decreases |s|
  {
    if s != [] {
      var init := s[..|s| - 1];
      FilterLengthIsCount(p, init);
      FilterSnoc(p, init, s[|s| - 1]);
      assert init + [s[|s| - 1]] == s;
    }
  }

  /** `String.prototype.split` on a set of one-character separators: the pieces
      between consecutive separators, always at least one. */
  function Split(s: string, isSep: char -> bool): (pieces: seq<string>)
    ensures |pieces| == Count(isSep, s) + 1
    ensures forall k, j :: 0 <= k < |pieces| && 0 <= j < |pieces[k]| ==> !isSep(pieces[k][j])
    decreases |s|
  {
    if s == [] then [""]
    else
      var init := Split(s[..|s| - 1], isSep);
      var c := s[|s| - 1];
      if isSep(c) then init + [""]
      else init[..|init| - 1] + [init[|init| - 1] + [c]]
  }

  /** Text without a separator splits into itself alone. */
  lemma {:induction false} SplitNoSeparator(s: string, isSep: char -> bool)
    requires forall k :: 0 <= k < |s| ==> !isSep(s[k])
    ensures Split(s, isSep) == [s]
    decreases |s|
  {
    if s != [] {
      SplitNoSeparator(s[..|s| - 1], isSep);
      assert s[..|s| - 1] + [s[|s| - 1]] == s;
    }
  }

  /** A separator followed by separator-free text `t` ends the split with the
      piece `t`. */
  lemma {:induction false} SplitAfterSeparator(s: string, c: char, t: string, isSep: char -> bool)
    requires isSep(c)
    requires forall k :: 0 <= k < |t| ==> !isSep(t[k])
    ensures Split(s + [c] + t, isSep) == Split(s, isSep) + [t]
    decreases |t|
  {
    var whole := s + [c] + t;
    var last := whole[|whole| - 1];
    var init := Split(whole[..|whole| - 1], isSep);
    if t == [] {
      assert whole[..|whole| - 1] == s && last == c;
      assert Split(whole, isSep) == init + [""];
    } else {
      var u := t[..|t| - 1];
      assert u + [last] == t by {
        assert last == t[|t| - 1];
      }
      assert whole[..|whole| - 1] == s + [c] + u;
      assert Split(whole, isSep) == init[..|init| - 1] + [init[|init| - 1] + [last]] by {
        assert !isSep(last);
      }
      SplitAfterSeparator(s, c, u, isSep);
      assert init[..|init| - 1] == Split(s, isSep) && init[|init| - 1] == u;
    }
  }

  /** `Array.prototype.join`: the pieces with `sep` between neighbours. */
  function Join(pieces: seq<string>, sep: string): string
    decreases |pieces|
  {
    if pieces == [] then ""
    else if |pieces| == 1 then pieces[0]
    else Join(pieces[..|pieces| - 1], sep) + sep + pieces[|pieces| - 1]
  }

  /** Splitting on a single separator character and joining with it again
      gives back the original text. */
  lemma {:induction false} SplitJoin(s: string, sep: char, isSep: char -> bool)
    requires forall c :: isSep(c) <==> c == sep
    ensures Join(Split(s, isSep), [sep]) == s
    decreases |s|
  {
    if s != [] {
      var init := Split(s[..|s| - 1], isSep);
      SplitJoin(s[..|s| - 1], sep, isSep);
      var c := s[|s| - 1];
      if isSep(c) {
        assert (init + [""])[..|init|] == init;
      } else {
        JoinExtendLast(init, [sep], c);
      }
      assert s[..|s| - 1] + [c] == s;
    }
  }

  /** Appending a character to the last piece appends it to the joined text. */
  lemma JoinExtendLast(pieces: seq<string>, sep: string, c: char)
    requires pieces != []
    ensures Join(pieces[..|pieces| - 1] + [pieces[|pieces| - 1] + [c]], sep) == Join(pieces, sep) + [c]
  {
    var n := |pieces|;
    var ext := pieces[..n - 1] + [pieces[n - 1] + [c]];
    if n > 1 {
      assert ext[..n - 1] == pieces[..n - 1];
    }
  }

  /** Appending a new piece appends the separator and the piece. */
  lemma JoinAppend(pieces: seq<string>, sep: string, last: string)
    requires pieces != []
    ensures Join(pieces + [last], sep) == Join(pieces, sep) + sep + last
  {
    assert (pieces + [last])[..|pieces|] == pieces;
  }
}
