/**
 * The text side of `OutputsContainer.run` in `outputs/container.py`: the
 * outputs of one file are sorted by the start of their match, last first,
 * and each replaces its match by `content[:start] + sub_by + content[end:]`.
 * Splicing from the end keeps the offsets of the matches still to come
 * valid, so for matches that do not overlap the result is the original
 * text with every match replaced at once.
 */
module Splice {
  import opened Patterns
  import opened Outputs

  /** Where a Python slice bound `i` falls in a string of length `n`. */
  function SliceBound(i: int, n: nat): (r: nat)
    ensures r <= n
    ensures 0 <= i <= n ==> r == i
    ensures i > n ==> r == n
  {
    if i < 0 then (if n + i < 0 then 0 else n + i) else if i > n then n else i
  }

  /** `s[:i]` */
  function Take(s: string, i: int): string {
    s[..SliceBound(i, |s|)]
  }

  /** `s[j:]` */
  function Drop(s: string, j: int): string {
    s[SliceBound(j, |s|)..]
  }

  function Start(o: Output): int {
    o.rematch.start
  }

  /** One step of the loop: the match of `o` replaced by its `sub_by`. */
  function SpliceOne(content: string, o: Output): (r: string)
    ensures 0 <= Start(o) <= o.rematch.end <= |content| ==>
      r == content[..Start(o)] + o.subBy + content[o.rematch.end..]
  {
    Take(content, Start(o)) + o.subBy + Drop(content, o.rematch.end)
  }

  /** The loop over a file's outputs, in list order. */
  function SpliceAll(content: string, outs: seq<Output>): string {
    if outs == [] then content
    else SpliceOne(SpliceAll(content, outs[..|outs| - 1]), outs[|outs| - 1])
  }

  /** The spans lie in the text and each one ends before those listed before it start. */
  predicate FromTheEnd(outs: seq<Output>, n: nat) {
    (forall k :: 0 <= k < |outs| ==> 0 <= Start(outs[k]) <= outs[k].rematch.end <= n)
    && (forall i, j :: 0 <= i < j < |outs| ==> outs[j].rematch.end <= Start(outs[i]))
  }

  /** Spans in increasing order from `pos` on, each ending before the later ones start, all inside the text. */
  predicate InOrder(outs: seq<Output>, pos: int, n: nat) {
    (forall k :: 0 <= k < |outs| ==> pos <= Start(outs[k]) <= outs[k].rematch.end <= n)
    && (forall i, j :: 0 <= i < j < |outs| ==> outs[i].rematch.end <= Start(outs[j]))
  }

  function Reverse(s: seq<Output>): (r: seq<Output>)
    ensures |r| == |s| && forall k :: 0 <= k < |s| ==> r[k] == s[|s| - 1 - k]
  {
    if s == [] then [] else [s[|s| - 1]] + Reverse(s[..|s| - 1])
  }

  /**
   * The reference: one pass over the original text from `pos`, copying the
   * text between the spans and putting each replacement in place of its span.
   */
  function Rebuild(content: string, outs: seq<Output>, pos: nat): string
    requires pos <= |content| && InOrder(outs, pos, |content|)
    decreases |outs|
  {
    if outs == [] then content[pos..]
    else content[pos..Start(outs[0])] + outs[0].subBy + Rebuild(content, outs[1..], outs[0].rematch.end)
  }

  /** Reading a list that runs from the end backwards gives a list in order. */
  lemma ReverseInOrder(outs: seq<Output>, pos: nat, n: nat)
    requires FromTheEnd(outs, n)
    requires forall k :: 0 <= k < |outs| ==> pos <= Start(outs[k])
    ensures InOrder(Reverse(outs), pos, n)
  {
  }

  /**
   * From `pos` on, splicing from the end is the one-pass rebuild, and
   * nothing before `pos` moves.
   */
  lemma {:induction false} SpliceFrom(content: string, outs: seq<Output>, pos: nat)
    requires pos <= |content| && FromTheEnd(outs, |content|)
    requires forall k :: 0 <= k < |outs| ==> pos <= Start(outs[k])
    ensures InOrder(Reverse(outs), pos, |content|)
    ensures SpliceAll(content, outs) == content[..pos] + Rebuild(content, Reverse(outs), pos)
    decreases |outs|
  {
    ReverseInOrder(outs, pos, |content|);
    if outs != [] {
      var init, last := outs[..|outs| - 1], outs[|outs| - 1];
      var s, e := Start(last), last.rematch.end;
      assert FromTheEnd(init, |content|);
      assert forall k :: 0 <= k < |init| ==> e <= Start(init[k]);
      SpliceFrom(content, init, e);
      var rest := Rebuild(content, Reverse(init), e);
      SpliceLast(content, SpliceAll(content, init), rest, last, pos);
      ReverseLast(outs);
      assert Rebuild(content, Reverse(outs), pos) == content[pos..s] + last.subBy + rest;
    }
  }

  /** Reversing puts the last element first. */
  lemma ReverseLast(outs: seq<Output>)
    requires outs != []
    ensures Reverse(outs) == [outs[|outs| - 1]] + Reverse(outs[..|outs| - 1])
    ensures Reverse(outs)[0] == outs[|outs| - 1] && Reverse(outs)[1..] == Reverse(outs[..|outs| - 1])
  {
  }

  /** Splicing `last` into a text whose prefix up to the end of `last` is the original's. */
  lemma SpliceLast(content: string, mid: string, rest: string, last: Output, pos: nat)
    requires pos <= Start(last) <= last.rematch.end <= |content|
    requires mid == content[..last.rematch.end] + rest
    ensures SpliceOne(mid, last) == content[..pos] + (content[pos..Start(last)] + last.subBy + rest)
  {
    var s, e := Start(last), last.rematch.end;
    assert mid[..s] == content[..s];
    assert mid[e..] == rest;
    assert content[..s] == content[..pos] + content[pos..s];
  }

  /**
   * Splicing from the end equals replacing every span of the original text
   * in one pass.
   */
  lemma SpliceOnePass(content: string, outs: seq<Output>)
    requires FromTheEnd(outs, |content|)
    ensures InOrder(Reverse(outs), 0, |content|)
    ensures SpliceAll(content, outs) == Rebuild(content, Reverse(outs), 0)
  {
    SpliceFrom(content, outs, 0);
  }

  // The sort: `list.sort(key=start, reverse=True)`, which is stable.

  /** `t` runs from the last start to the first. */
  predicate Descending(t: seq<Output>) {
    forall i, j :: 0 <= i < j < |t| ==> Start(t[i]) >= Start(t[j])
  }

  /** `x` goes after every element that starts no earlier than it does. */
  function Insert(t: seq<Output>, x: Output): (r: seq<Output>)
    ensures |r| == |t| + 1
  {
    if t == [] || Start(t[|t| - 1]) >= Start(x) then t + [x]
    else Insert(t[..|t| - 1], x) + [t[|t| - 1]]
  }

  /** The container's sort of a file's outputs. */
  function SortDesc(s: seq<Output>): (r: seq<Output>)
    ensures |r| == |s|
  {
    if s == [] then [] else Insert(SortDesc(s[..|s| - 1]), s[|s| - 1])
  }

  /** The outputs of `s` that start at `v`, in their order in `s`. */
  function StartingAt(s: seq<Output>, v: int): seq<Output> {
    if s == [] then []
    else StartingAt(s[..|s| - 1], v) + (if Start(s[|s| - 1]) == v then [s[|s| - 1]] else [])
  }

  lemma {:induction false} StartingAtAppend(a: seq<Output>, b: seq<Output>, v: int)
    ensures StartingAt(a + b, v) == StartingAt(a, v) + StartingAt(b, v)
    decreases |b|
  {
    if b != [] {
      assert (a + b)[..|a + b| - 1] == a + b[..|b| - 1];
      assert (a + b)[|a + b| - 1] == b[|b| - 1];
      StartingAtAppend(a, b[..|b| - 1], v);
    } else {
      assert a + b == a;
    }
  }

  lemma {:induction false} InsertPermutes(t: seq<Output>, x: Output)
    ensures multiset(Insert(t, x)) == multiset(t) + multiset{x}
    decreases |t|
  {
    if !(t == [] || Start(t[|t| - 1]) >= Start(x)) {
      InsertPermutes(t[..|t| - 1], x);
      assert t == t[..|t| - 1] + [t[|t| - 1]];
    }
  }

  lemma {:induction false} InsertDescending(t: seq<Output>, x: Output)
    requires Descending(t)
    ensures Descending(Insert(t, x))
    decreases |t|
  {
    if !(t == [] || Start(t[|t| - 1]) >= Start(x)) {
      var init, y := t[..|t| - 1], t[|t| - 1];
      InsertDescending(init, x);
      InsertPermutes(init, x);
      var u := Insert(init, x);
      forall e | e in u ensures Start(e) >= Start(y) {
        assert e in multiset(u);
        if e != x {
          assert e in multiset(init);
          var i :| 0 <= i < |init| && init[i] == e;
          assert t[i] == e;
        }
      }
      forall i, j | 0 <= i < j < |u + [y]| ensures Start((u + [y])[i]) >= Start((u + [y])[j]) {
        if j == |u| {
          assert (u + [y])[i] in u;
        }
      }
    }
  }

  lemma StartingAtOne(y: Output, v: int)
    ensures StartingAt([y], v) == if Start(y) == v then [y] else []
  {
    assert [y][..0] == [];
  }

  /** Inserting `x` puts it after the outputs with its own start that were already there. */
  lemma {:induction false} InsertStable(t: seq<Output>, x: Output, v: int)
    ensures StartingAt(Insert(t, x), v) == StartingAt(t, v) + (if Start(x) == v then [x] else [])
    decreases |t|
  {
    if t == [] || Start(t[|t| - 1]) >= Start(x) {
      assert (t + [x])[..|t|] == t;
    } else {
      var init, y := t[..|t| - 1], t[|t| - 1];
      var u := Insert(init, x);
      assert Insert(t, x) == u + [y];
      assert t == init + [y];
      var xs: seq<Output> := if Start(x) == v then [x] else [];
      var ys: seq<Output> := if Start(y) == v then [y] else [];
      InsertStable(init, x, v);
      StartingAtAppend(u, [y], v);
      StartingAtAppend(init, [y], v);
      StartingAtOne(y, v);
      assert xs == [] || ys == [];
      var su := StartingAt(u, v);
      assert su == StartingAt(init, v) + xs;
      calc {
        StartingAt(Insert(t, x), v);
        su + ys;
        StartingAt(init, v) + xs + ys;
        { if xs == [] { assert xs + ys == ys; } else { assert xs + ys == xs; } }
        StartingAt(init, v) + ys + xs;
        StartingAt(t, v) + xs;
      }
    }
  }

  /** The sort rearranges the outputs and drops or duplicates none. */
  lemma {:induction false} SortPermutes(s: seq<Output>)
    ensures multiset(SortDesc(s)) == multiset(s)
    decreases |s|
  {
    if s != [] {
      SortPermutes(s[..|s| - 1]);
      InsertPermutes(SortDesc(s[..|s| - 1]), s[|s| - 1]);
      assert s == s[..|s| - 1] + [s[|s| - 1]];
    }
  }

  /** The sorted list runs from the last start to the first. */
  lemma {:induction false} SortDescending(s: seq<Output>)
    ensures Descending(SortDesc(s))
    decreases |s|
  {
    if s != [] {
      SortDescending(s[..|s| - 1]);
      InsertDescending(SortDesc(s[..|s| - 1]), s[|s| - 1]);
    }
  }

  /** The sort is stable: the outputs that start at the same place keep their order. */
  lemma {:induction false} SortStable(s: seq<Output>, v: int)
    ensures StartingAt(SortDesc(s), v) == StartingAt(s, v)
    decreases |s|
  {
    if s != [] {
      SortStable(s[..|s| - 1], v);
      SortDescending(s[..|s| - 1]);
      InsertStable(SortDesc(s[..|s| - 1]), s[|s| - 1], v);
    }
  }

  // Matches that do not overlap.

  /** Two non-empty spans that share no position. */
  predicate Apart(x: Output, y: Output) {
    Start(x) < x.rematch.end && Start(y) < y.rematch.end
    && (x.rematch.end <= Start(y) || y.rematch.end <= Start(x))
  }

  predicate PairwiseApart(s: seq<Output>) {
    forall i, j :: 0 <= i < j < |s| ==> Apart(s[i], s[j])
  }

  lemma {:induction false} InsertApart(t: seq<Output>, x: Output)
    requires PairwiseApart(t) && forall e :: e in t ==> Apart(e, x)
    ensures PairwiseApart(Insert(t, x))
    decreases |t|
  {
    if t == [] || Start(t[|t| - 1]) >= Start(x) {
      var r := t + [x];
      forall i, j | 0 <= i < j < |r| ensures Apart(r[i], r[j]) {
        if j == |t| {
          assert r[i] in t;
        }
      }
    } else {
      var init, y := t[..|t| - 1], t[|t| - 1];
      assert forall e :: e in init ==> e in t;
      InsertApart(init, x);
      InsertPermutes(init, x);
      var u := Insert(init, x);
      forall e | e in u ensures Apart(e, y) {
        assert e in multiset(u);
        if e != x {
          assert e in multiset(init);
          var i :| 0 <= i < |init| && init[i] == e;
          assert t[i] == e;
        } else {
          assert y in t;
        }
      }
      var r := u + [y];
      forall i, j | 0 <= i < j < |r| ensures Apart(r[i], r[j]) {
        if j == |u| {
          assert r[i] in u;
        }
      }
    }
  }

  /** Sorting keeps the spans apart. */
  lemma {:induction false} SortApart(s: seq<Output>)
    requires PairwiseApart(s)
    ensures PairwiseApart(SortDesc(s))
    decreases |s|
  {
    if s != [] {
      var init, last := s[..|s| - 1], s[|s| - 1];
      SortApart(init);
      SortPermutes(init);
      forall e | e in SortDesc(init) ensures Apart(e, last) {
        assert e in multiset(SortDesc(init));
        var i :| 0 <= i < |init| && init[i] == e;
        assert s[i] == e;
      }
      InsertApart(SortDesc(init), last);
    }
  }

  /** Sorted spans that are apart each end before the ones sorted before them start. */
  lemma SortedApartFromTheEnd(t: seq<Output>, n: nat)
    requires Descending(t) && PairwiseApart(t)
    requires forall k :: 0 <= k < |t| ==> 0 <= Start(t[k]) < t[k].rematch.end <= n
    ensures FromTheEnd(t, n)
  {
    forall i, j | 0 <= i < j < |t| ensures t[j].rematch.end <= Start(t[i]) {
      assert Apart(t[i], t[j]);
    }
  }

  /**
   * The main property of `run`: when the matches of a file are non-empty,
   * inside the text and pairwise apart, sorting them last first and
   * splicing them one by one gives the original text with every match
   * replaced in one pass, in order of position.
   */
  lemma RunSplicesOnePass(content: string, outs: seq<Output>)
    requires forall k :: 0 <= k < |outs| ==> 0 <= Start(outs[k]) < outs[k].rematch.end <= |content|
    requires PairwiseApart(outs)
    ensures InOrder(Reverse(SortDesc(outs)), 0, |content|)
    ensures SpliceAll(content, SortDesc(outs)) == Rebuild(content, Reverse(SortDesc(outs)), 0)
  {
    var t := SortDesc(outs);
    SortDescending(outs);
    SortApart(outs);
    SortPermutes(outs);
    forall k | 0 <= k < |t| ensures 0 <= Start(t[k]) < t[k].rematch.end <= |content| {
      assert t[k] in multiset(outs);
      var i :| 0 <= i < |outs| && outs[i] == t[k];
    }
    SortedApartFromTheEnd(t, |content|);
    SpliceOnePass(content, t);
  }
}
