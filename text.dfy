/** String and sequence helpers shared by the backend filters and the client
    search: ASCII case folding, substring search, whitespace as JavaScript's
    regular expressions see it, and an order-preserving filter. */
module Text {
  import opened Wrappers

  /** Lower-cases one character. Only the ASCII letters A-Z are folded. */
  function LowerChar(c: char): (r: char)
    ensures 'A' <= c <= 'Z' ==> r as int == c as int + 32
    ensures !('A' <= c <= 'Z') ==> r == c
    ensures !('A' <= r <= 'Z')
  {
    if 'A' <= c <= 'Z' then (c as int + 32) as char else c
  }

  /** Lower-cases a string character by character. */
  function Lower(s: string): (r: string)
    ensures |r| == |s|
    ensures forall i :: 0 <= i < |s| ==> r[i] == LowerChar(s[i])
  {
    seq(|s|, i requires 0 <= i < |s| => LowerChar(s[i]))
  }

  /** `t` occurs in `s` starting at index `i`. */
  ghost predicate OccursAt(s: string, t: string, i: int)
  {
    0 <= i && i + |t| <= |s| && s[i..i + |t|] == t
  }

  /** Substring search, the executable counterpart of `exists i :: OccursAt(s, t, i)`. */
  function Contains(s: string, t: string): (b: bool)
    ensures b <==> exists i :: OccursAt(s, t, i)
    decreases |s|
  {
    if |t| > |s| then
      assert forall i :: !OccursAt(s, t, i);
      false
    else if s[..|t|] == t then
      assert OccursAt(s, t, 0);
      true
    else
      var rest := Contains(s[1..], t);
      assert forall i :: OccursAt(s[1..], t, i) <==> OccursAt(s, t, i + 1) by {
        forall i ensures OccursAt(s[1..], t, i) <==> OccursAt(s, t, i + 1) {
          if 0 <= i && i + |t| <= |s| - 1 {
            assert s[1..][i..i + |t|] == s[i + 1..i + 1 + |t|];
          }
        }
      }
      assert rest ==> OccursAt(s, t, ExistsWitness(s[1..], t) + 1);
      assert (exists i :: OccursAt(s, t, i)) ==> rest by {
        if exists i :: OccursAt(s, t, i) {
          var i :| OccursAt(s, t, i);
          assert i != 0;
          assert OccursAt(s[1..], t, i - 1);
        }
      }
      rest
  }

  /** Some index at which `t` occurs in `s`, when there is one. */
  ghost function ExistsWitness(s: string, t: string): (i: int)
    ensures (exists j :: OccursAt(s, t, j)) ==> OccursAt(s, t, i)
  {
    if exists j :: OccursAt(s, t, j) then var j :| OccursAt(s, t, j); j else 0
  }

  /** The empty string occurs in every string. */
  lemma ContainsEmpty(s: string)
    ensures Contains(s, "")
  {
    assert OccursAt(s, "", 0);
  }

  /** Case-insensitive substring test in the manner of Django's `icontains`
      and JavaScript's `a.toLowerCase().includes(b.toLowerCase())`. */
  function IContains(s: string, t: string): (b: bool)
    ensures b <==> exists i :: OccursAt(Lower(s), Lower(t), i)
  {
    Contains(Lower(s), Lower(t))
  }

  /** The matching is blind to ASCII case on both sides. */
  lemma IContainsIgnoresCase(s: string, t: string)
    ensures IContains(Lower(s), t) == IContains(s, t)
    ensures IContains(s, Lower(t)) == IContains(s, t)
  {
    LowerIdempotent(s);
    LowerIdempotent(t);
  }

  lemma LowerIdempotent(s: string)
    ensures Lower(Lower(s)) == Lower(s)
  {
  }

  /** Whitespace as the `\s` class of JavaScript regular expressions defines
      it: the ECMAScript WhiteSpace and LineTerminator characters. */
  predicate IsJsWhitespace(c: char)
  {
    || c == '\t' || c == '\n' || c == '\U{000B}' || c == '\U{000C}' || c == '\r'
    || c == ' ' || c == '\U{00A0}' || c == '\U{1680}'
    || ('\U{2000}' <= c <= '\U{200A}')
    || c == '\U{2028}' || c == '\U{2029}' || c == '\U{202F}' || c == '\U{205F}'
    || c == '\U{3000}' || c == '\U{FEFF}'
  }

  /** The first index at which `c` occurs in `s`, if any. */
  function IndexOf(s: string, c: char): (r: Option<nat>)
    ensures r.None? <==> c !in s
    ensures r.Some? ==> r.value < |s| && s[r.value] == c && c !in s[..r.value]
    decreases |s|
  {
    if s == [] then None
    else if s[0] == c then Some(0)
    else
      var rest := IndexOf(s[1..], c);
      if rest.None? then None
      else
        assert s[..rest.value + 1] == [s[0]] + s[1..][..rest.value];
        Some(rest.value + 1)
  }

  /** Keys of an association list are pairwise distinct, as the keys of a
      dictionary are. */
  predicate DistinctKeys<K(==), V>(entries: seq<(K, V)>)
  {
    forall i, j :: 0 <= i < j < |entries| ==> entries[i].0 != entries[j].0
  }

  /** The positions of `s` whose element satisfies `p`, in increasing order:
      exactly those positions, each once. */
  function Selected<T>(s: seq<T>, p: T -> bool): (idx: seq<nat>)
    ensures forall k :: 0 <= k < |idx| ==> idx[k] < |s| && p(s[idx[k]])
    ensures forall k, l :: 0 <= k < l < |idx| ==> idx[k] < idx[l]
    ensures forall i :: 0 <= i < |s| && p(s[i]) ==> i in idx
    decreases |s|
  {
    if s == [] then []
    else
      var rest := Selected(s[1..], p);
      ShiftSound(s, p, rest);
      ShiftComplete(s, p, rest);
      SelectedCons(s, p, Shift(rest));
      if p(s[0]) then [0] + Shift(rest) else Shift(rest)
  }

  /** Every position moved one place to the right. */
  function Shift(idx: seq<nat>): (r: seq<nat>)
    ensures |r| == |idx| && forall k :: 0 <= k < |idx| ==> r[k] == idx[k] + 1
  {
    seq(|idx|, k requires 0 <= k < |idx| => idx[k] + 1)
  }

  /** The positions picked in the tail, moved one place, are positions of the
      whole sequence that satisfy `p`. */
  lemma {:induction false} ShiftSound<T>(s: seq<T>, p: T -> bool, rest: seq<nat>)
    requires s != []
    requires forall k :: 0 <= k < |rest| ==> rest[k] < |s[1..]| && p(s[1..][rest[k]])
    ensures forall k :: 0 <= k < |rest| ==> 1 <= Shift(rest)[k] < |s| && p(s[Shift(rest)[k]])
  {
    forall k | 0 <= k < |rest| ensures 1 <= Shift(rest)[k] < |s| && p(s[Shift(rest)[k]]) {
      assert s[1..][rest[k]] == s[rest[k] + 1];
    }
  }

  /** Every position after the head that satisfies `p` is among the positions
      picked in the tail, moved one place. */
  lemma {:induction false} ShiftComplete<T>(s: seq<T>, p: T -> bool, rest: seq<nat>)
    requires s != []
    requires forall i :: 0 <= i < |s[1..]| && p(s[1..][i]) ==> i in rest
    ensures forall i :: 1 <= i < |s| && p(s[i]) ==> i in Shift(rest)
  {
    forall i | 1 <= i < |s| && p(s[i]) ensures i in Shift(rest) {
      assert s[1..][i - 1] == s[i];
      var k :| 0 <= k < |rest| && rest[k] == i - 1;
      assert Shift(rest)[k] == i;
    }
  }

  /** Putting the head's position in front when the head satisfies `p`. */
  lemma {:induction false} SelectedCons<T>(s: seq<T>, p: T -> bool, shifted: seq<nat>)
    requires s != []
    requires forall k :: 0 <= k < |shifted| ==> 1 <= shifted[k] < |s| && p(s[shifted[k]])
    requires forall k, l :: 0 <= k < l < |shifted| ==> shifted[k] < shifted[l]
    requires forall i :: 1 <= i < |s| && p(s[i]) ==> i in shifted
    ensures var r := if p(s[0]) then [0] + shifted else shifted;
      && (forall k :: 0 <= k < |r| ==> r[k] < |s| && p(s[r[k]]))
      && (forall k, l :: 0 <= k < l < |r| ==> r[k] < r[l])
      && (forall i :: 0 <= i < |s| && p(s[i]) ==> i in r)
  {
    if p(s[0]) {
      HeadSelected(s, p, shifted);
    } else {
      forall i | 0 <= i < |s| && p(s[i]) ensures i in shifted {
        assert i != 0;
      }
    }
  }

  lemma {:induction false} HeadSelected<T>(s: seq<T>, p: T -> bool, shifted: seq<nat>)
    requires s != [] && p(s[0])
    requires forall k :: 0 <= k < |shifted| ==> 1 <= shifted[k] < |s| && p(s[shifted[k]])
    requires forall k, l :: 0 <= k < l < |shifted| ==> shifted[k] < shifted[l]
    requires forall i :: 1 <= i < |s| && p(s[i]) ==> i in shifted
    ensures var r := [0] + shifted;
      && (forall k :: 0 <= k < |r| ==> r[k] < |s| && p(s[r[k]]))
      && (forall k, l :: 0 <= k < l < |r| ==> r[k] < r[l])
      && (forall i :: 0 <= i < |s| && p(s[i]) ==> i in r)
  {
    var r := [0] + shifted;
    forall k | 0 <= k < |r| ensures r[k] < |s| && p(s[r[k]]) {
      if k > 0 {
        assert r[k] == shifted[k - 1];
      }
    }
    forall k, l | 0 <= k < l < |r| ensures r[k] < r[l] {
      assert r[l] == shifted[l - 1];
      if k > 0 {
        assert r[k] == shifted[k - 1];
      }
    }
    forall i | 0 <= i < |s| && p(s[i]) ensures i in r {
      if i == 0 {
        assert r[0] == 0;
      } else {
        var k :| 0 <= k < |shifted| && shifted[k] == i;
        assert r[k + 1] == i;
      }
    }
  }

  /** Keeps the elements satisfying `p`, in their original order
      (`FilterSelects` states which positions it keeps). */
  function Filter<T>(s: seq<T>, p: T -> bool): (r: seq<T>)
    ensures |r| <= |s|
    ensures forall i :: 0 <= i < |r| ==> p(r[i]) && r[i] in s
    ensures forall i :: 0 <= i < |s| && p(s[i]) ==> s[i] in r
    decreases |s|
  {
    if s == [] then []
    else if p(s[0]) then [s[0]] + Filter(s[1..], p)
    else Filter(s[1..], p)
  }

  /** The filter lists `s` at exactly the positions `Selected` picks, in
      increasing order. */
  lemma {:induction false} FilterSelects<T>(s: seq<T>, p: T -> bool)
    ensures |Filter(s, p)| == |Selected(s, p)|
    ensures forall k :: 0 <= k < |Filter(s, p)| ==> Filter(s, p)[k] == s[Selected(s, p)[k]]
    decreases |s|
  {
    if s != [] {
      FilterSelects(s[1..], p);
      FilterStep(s, p, Filter(s[1..], p));
    }
  }

  lemma {:induction false} FilterStep<T>(s: seq<T>, p: T -> bool, rest: seq<T>)
    requires s != []
    requires |rest| == |Selected(s[1..], p)|
    requires forall k :: 0 <= k < |rest| ==> rest[k] == s[1..][Selected(s[1..], p)[k]]
    ensures var r := if p(s[0]) then [s[0]] + rest else rest;
      |r| == |Selected(s, p)| && forall k :: 0 <= k < |r| ==> r[k] == s[Selected(s, p)[k]]
  {
    var idx := Selected(s[1..], p);
    assert Selected(s, p) == if p(s[0]) then [0] + Shift(idx) else Shift(idx);
    forall k | 0 <= k < |rest| ensures rest[k] == s[Shift(idx)[k]] {
      assert s[1..][idx[k]] == s[idx[k] + 1];
    }
  }

  /** A filter keeps the keys of an association list distinct. */
  lemma FilterKeepsDistinctKeys<K, V>(s: seq<(K, V)>, p: ((K, V)) -> bool)
    requires DistinctKeys(s)
    ensures DistinctKeys(Filter(s, p))
  {
    var idx := Selected(s, p);
    var r := Filter(s, p);
    FilterSelects(s, p);
    forall i, j | 0 <= i < j < |r| ensures r[i].0 != r[j].0 {
      assert r[i] == s[idx[i]] && r[j] == s[idx[j]] && idx[i] < idx[j];
    }
  }

  /** Filtering distributes over concatenation, so relative order survives. */
  lemma {:induction false} FilterConcat<T>(a: seq<T>, b: seq<T>, p: T -> bool)
    ensures Filter(a + b, p) == Filter(a, p) + Filter(b, p)
    decreases |a|
  {
    if a == [] {
      assert a + b == b;
    } else {
      assert (a + b)[1..] == a[1..] + b;
      FilterConcat(a[1..], b, p);
    }
  }

  /** A filter whose predicate every element satisfies changes nothing. */
  lemma {:induction false} FilterAll<T>(s: seq<T>, p: T -> bool)
    requires forall i :: 0 <= i < |s| ==> p(s[i])
    ensures Filter(s, p) == s
    decreases |s|
  {
    if s != [] {
      FilterAll(s[1..], p);
    }
  }

  /** Filters with pointwise-equal predicates agree. */
  lemma {:induction false} FilterExt<T>(s: seq<T>, p: T -> bool, q: T -> bool)
    requires forall i :: 0 <= i < |s| ==> p(s[i]) == q(s[i])
    ensures Filter(s, p) == Filter(s, q)
    decreases |s|
  {
    if s != [] {
      FilterExt(s[1..], p, q);
    }
  }

  /** A filter applied only when `given` holds is a filter whose predicate
      accepts everything otherwise. */
  lemma FilterWhen<T>(s: seq<T>, given: bool, p: T -> bool, q: T -> bool)
    requires forall i :: 0 <= i < |s| ==> q(s[i]) == (!given || p(s[i]))
    ensures (if given then Filter(s, p) else s) == Filter(s, q)
  {
    if given {
      FilterExt(s, p, q);
    } else {
      FilterAll(s, q);
    }
  }

  /** Two filters in a row keep what their conjunction `both` keeps. */
  lemma {:induction false} FilterFilter<T>(s: seq<T>, p: T -> bool, q: T -> bool, both: T -> bool)
    requires forall i :: 0 <= i < |s| ==> both(s[i]) == (p(s[i]) && q(s[i]))
    ensures Filter(Filter(s, p), q) == Filter(s, both)
    decreases |s|
  {
    if s != [] {
      FilterFilter(s[1..], p, q, both);
    }
  }

  /** Three filters, each applied only when its parameter is given, keep
      exactly what the conjunction of the given conditions keeps. */
  lemma FilterChain3<T>(s: seq<T>, g1: bool, p1: T -> bool, g2: bool, p2: T -> bool, g3: bool, p3: T -> bool, all: T -> bool)
    requires forall i :: 0 <= i < |s| ==>
      all(s[i]) == ((g1 ==> p1(s[i])) && (g2 ==> p2(s[i])) && (g3 ==> p3(s[i])))
    ensures (var a := if g1 then Filter(s, p1) else s;
             var b := if g2 then Filter(a, p2) else a;
             if g3 then Filter(b, p3) else b) == Filter(s, all)
  {
    var q1 := (x: T) => g1 ==> p1(x);
    var q2 := (x: T) => g2 ==> p2(x);
    var q3 := (x: T) => g3 ==> p3(x);
    var q12 := (x: T) => q1(x) && q2(x);
    var a := if g1 then Filter(s, p1) else s;
    FilterWhen(s, g1, p1, q1);
    var b := if g2 then Filter(a, p2) else a;
    FilterWhen(a, g2, p2, q2);
    FilterFilter(s, q1, q2, q12);
    FilterWhen(b, g3, p3, q3);
    FilterFilter(s, q12, q3, all);
  }
}
