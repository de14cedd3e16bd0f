/** Sequence helpers shared by several modules. */
module Sequences {

  /** The elements of s in the opposite order (a range built from rbegin()/rend()). */
  function Reverse<T>(s: seq<T>): (r: seq<T>)
    ensures |r| == |s| && forall k :: 0 <= k < |s| ==> r[k] == s[|s| - 1 - k]
  {
    if s == [] then [] else Reverse(s[1..]) + [s[0]]
  }

  /** Reading a sequence backwards twice gives it back. */
  lemma ReverseInvolutive<T>(s: seq<T>)
    ensures Reverse(Reverse(s)) == s
  {
  }

  lemma AppendAssociative<T>(a: seq<T>, b: seq<T>, c: seq<T>)
    ensures (a + b) + c == a + (b + c)
  {
  }

  /** Moving the front of the rest to the end of what is done keeps the whole. */
  lemma MoveFront<T>(done: seq<T>, rest: seq<T>, front: seq<T>, remaining: seq<T>, whole: seq<T>)
    requires done + rest == whole && rest == front + remaining
    ensures (done + front) + remaining == whole
  {
    AppendAssociative(done, front, remaining);
  }

  /** An out-and-back traversal: the stops, then the same stops reversed without the last one. */
  function OutAndBack<T>(s: seq<T>): (r: seq<T>)
    requires s != []
    ensures |r| == 2 * |s| - 1
    ensures r[..|s|] == s
    ensures forall k :: 0 <= k < |r| ==> r[k] == r[|r| - 1 - k]
  {
    var back := Reverse(s[..|s| - 1]);
    var r := s + back;
    assert forall k :: |s| <= k < |r| ==> r[k] == s[2 * |s| - 2 - k];
    r
  }

  /** In a strictly increasing sequence every value occurs at most once. */
  lemma {:induction false} IncreasingOnce(s: seq<nat>, x: nat)
    requires forall i, j :: 0 <= i < j < |s| ==> s[i] < s[j]
    ensures multiset(s)[x] <= 1
    decreases |s|
  {
    if s != [] {
      var init := s[..|s| - 1];
      IncreasingOnce(init, x);
      assert s == init + [s[|s| - 1]];
    }
  }

  /**
   * A permutation of a strictly increasing sequence holds the same values,
   * as many of them, and each once.
   */
  lemma PermutationOfIncreasing(p: seq<nat>, s: seq<nat>)
    requires forall i, j :: 0 <= i < j < |s| ==> s[i] < s[j]
    requires multiset(p) == multiset(s)
    ensures forall k :: k in p <==> k in s
    ensures |p| == |s|
    ensures forall i, j :: 0 <= i < j < |p| ==> p[i] != p[j]
  {
    forall k ensures k in p <==> k in s {
      assert k in p <==> k in multiset(p);
      assert k in s <==> k in multiset(s);
    }
    assert |multiset(p)| == |multiset(s)|;
    forall i, j | 0 <= i < j < |p| ensures p[i] != p[j] {
      if p[i] == p[j] {
        TwiceCounted(p, i, j);
        IncreasingOnce(s, p[i]);
      }
    }
  }

  /** A value found at two positions occurs at least twice. */
  lemma TwiceCounted<T>(s: seq<T>, i: nat, j: nat)
    requires i < j < |s| && s[i] == s[j]
    ensures multiset(s)[s[i]] >= 2
  {
    assert s == s[..j] + [s[j]] + s[j + 1..];
    assert s[..j][i] == s[i];
  }
}
