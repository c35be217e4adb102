/** The three array primitives the handlers use, over immutable sequences:
    `findIndex`/`find`, `filter` and a one-element `splice`. */
module Seqs {
  import opened Wrappers

  /** `s.findIndex(p)`, with `None` in place of `-1`: the index of the first
      element that satisfies `p`. */
  function FindIndex<T>(s: seq<T>, p: T -> bool): (r: Option<nat>)
    ensures r.None? <==> forall i :: 0 <= i < |s| ==> !p(s[i])
    ensures r.Some? ==> r.value < |s| && p(s[r.value])
    ensures r.Some? ==> forall j :: 0 <= j < r.value ==> !p(s[j])
    decreases |s|
  {
    if |s| == 0 then None
    else if p(s[0]) then Some(0)
    else
      match FindIndex(s[1..], p)
      case None => None
      case Some(i) => Some(i + 1)
  }

  /** `findIndex` over a sequence with one element appended: the old answer
      if there was one, otherwise the new last position if it qualifies. */
  lemma {:induction false} FindIndexSnoc<T>(s: seq<T>, x: T, p: T -> bool)
    ensures FindIndex(s + [x], p)
            == if FindIndex(s, p).Some? then FindIndex(s, p)
               else if p(x) then Some(|s|) else None
    decreases |s|
  {
    if |s| == 0 {
      assert s + [x] == [x];
      assert [x][1..] == [];
    } else if !p(s[0]) {
      assert (s + [x])[1..] == s[1..] + [x];
      FindIndexSnoc(s[1..], x, p);
    }
  }

  /** `s.find(p)`: the first element that satisfies `p`. */
  function Find<T>(s: seq<T>, p: T -> bool): Option<T>
  {
    match FindIndex(s, p)
    case None => None
    case Some(i) => Some(s[i])
  }

  /** `s.filter(p)`: the elements that satisfy `p`, in their original order. */
  function Filter<T>(s: seq<T>, p: T -> bool): (r: seq<T>)
    ensures |r| <= |s|
    ensures forall x :: x in r ==> x in s && p(x)
    ensures forall i :: 0 <= i < |s| && p(s[i]) ==> s[i] in r
    decreases |s|
  {
    if |s| == 0 then []
    else Filter(s[..|s| - 1], p) + (if p(s[|s| - 1]) then [s[|s| - 1]] else [])
  }

  /** Filtering a sequence with one more element at the end keeps the old
      result and appends that element exactly when it qualifies. */
  lemma FilterSnoc<T>(s: seq<T>, x: T, p: T -> bool)
    ensures Filter(s + [x], p) == Filter(s, p) + (if p(x) then [x] else [])
  {
    assert (s + [x])[..|s|] == s;
  }

  /** Filtering distributes over concatenation, so the relative order of the
      kept elements is their order in the input. */
  lemma {:induction false} FilterConcat<T>(s: seq<T>, t: seq<T>, p: T -> bool)
    ensures Filter(s + t, p) == Filter(s, p) + Filter(t, p)
    decreases |t|
  {
    if |t| == 0 {
      assert s + t == s;
    } else {
      var t', x := t[..|t| - 1], t[|t| - 1];
      var kept := if p(x) then [x] else [];
      calc {
        Filter(s + t, p);
        == { assert s + t == (s + t') + [x]; }
        Filter((s + t') + [x], p);
        == { FilterSnoc(s + t', x, p); }
        Filter(s + t', p) + kept;
        == { FilterConcat(s, t', p); }
        (Filter(s, p) + Filter(t', p)) + kept;
        == { FilterSnoc(t', x, p); assert t' + [x] == t; }
        Filter(s, p) + Filter(t, p);
      }
    }
  }

  /** `s.splice(i, 1)` on a copy: the sequence without position `i`, every other
      element kept in its original order. */
  function RemoveAt<T>(s: seq<T>, i: nat): (r: seq<T>)
    requires i < |s|
    ensures |r| == |s| - 1
    ensures forall j :: 0 <= j < i ==> r[j] == s[j]
    ensures forall j :: i <= j < |r| ==> r[j] == s[j + 1]
    ensures multiset(r) + multiset{s[i]} == multiset(s)
  {
    assert s == s[..i] + [s[i]] + s[i + 1..];
    s[..i] + s[i + 1..]
  }
}
