/** The layer bookkeeping of `generateArt` (artp5/sketch.js): which of the
    three off-screen layers are shown, and the order in which they are laid
    over each other. The buffers themselves are left out; a layer is its name. */
module ArtLayers {
  import opened P5Random

  datatype Layer = Layer1 | Layer2 | Layer3

  /** Position of a layer in the fixed order Layer1, Layer2, Layer3. */
  function Rank(l: Layer): nat {
    match l
    case Layer1 => 0
    case Layer2 => 1
    case Layer3 => 2
  }

  /** The literal list the fallback `random([...])` picks from. */
  function AllLayers(): seq<Layer> {
    [Layer1, Layer2, Layer3]
  }

  /** `random() > 0.5`: one coin flip. */
  predicate Heads(u: real) {
    u > 0.5
  }

  /** Strictly increasing in `Rank`, hence free of duplicates. */
  predicate InLayerOrder(s: seq<Layer>) {
    forall i, j :: 0 <= i < j < |s| ==> Rank(s[i]) < Rank(s[j])
  }

  predicate Distinct<T(==)>(s: seq<T>) {
    forall i, j :: 0 <= i < j < |s| ==> s[i] != s[j]
  }

  /** The `activeLayers.push` sequence: one coin per layer, in layer order,
      and, when every coin came up tails, one layer picked by `emergency`. */
  method SelectActiveLayers(coin1: real, coin2: real, coin3: real, emergency: real)
    returns (active: seq<Layer>)
    requires Unit(coin1) && Unit(coin2) && Unit(coin3) && Unit(emergency)
    ensures 1 <= |active| <= 3
    ensures InLayerOrder(active) && Distinct(active)
    ensures Heads(coin1) || Heads(coin2) || Heads(coin3) ==>
      (Layer1 in active <==> Heads(coin1)) &&
      (Layer2 in active <==> Heads(coin2)) &&
      (Layer3 in active <==> Heads(coin3))
    ensures !(Heads(coin1) || Heads(coin2) || Heads(coin3)) ==>
      active == [AllLayers()[PickIndex(emergency, 3)]]
  {
    active := [];
    if Heads(coin1) {
      active := active + [Layer1];
    }
    if Heads(coin2) {
      active := active + [Layer2];
    }
    if Heads(coin3) {
      active := active + [Layer3];
    }
    if |active| == 0 {
      var emergencyLayer := AllLayers()[PickIndex(emergency, 3)];
      active := active + [emergencyLayer];
    }
  }

  /** `[array[i], array[j]] = [array[j], array[i]]`. */
  function Swap<T>(s: seq<T>, i: nat, j: nat): (r: seq<T>)
    requires i < |s| && j < |s|
  {
    s[i := s[j]][j := s[i]]
  }

  /** The draw for loop position `i` (`draws[i]`, `1 <= i`) picks `j` in
      [0, i]; positions are visited from `i` down to 1. */
  function ShuffleFrom<T>(s: seq<T>, draws: seq<real>, i: nat): (r: seq<T>)
    requires i < |s| && |draws| == |s|
    requires forall k :: 0 <= k < |draws| ==> Unit(draws[k])
    decreases i
  {
    if i == 0 then s
    else ShuffleFrom(Swap(s, i, PickIndex(draws[i], i + 1)), draws, i - 1)
  }

  /** The Fisher–Yates pass of `shuffleArray`; the empty array is left alone. */
  function Shuffled<T>(s: seq<T>, draws: seq<real>): (r: seq<T>)
    requires |draws| == |s|
    requires forall k :: 0 <= k < |draws| ==> Unit(draws[k])
  {
    if |s| == 0 then s else ShuffleFrom(s, draws, |s| - 1)
  }

  lemma SwapPermutes<T>(s: seq<T>, i: nat, j: nat)
    requires i < |s| && j < |s|
    ensures |Swap(s, i, j)| == |s|
    ensures multiset(Swap(s, i, j)) == multiset(s)
  {
    if i != j {
      var t := s[i := s[j]];
      assert multiset(t) == multiset(s) - multiset{s[i]} + multiset{s[j]};
      assert multiset(t[j := s[i]]) == multiset(t) - multiset{s[j]} + multiset{s[i]};
    }
  }

  /** The shuffle only reorders: same length, same elements with the same
      multiplicities. */
  lemma {:induction false} ShuffledPermutes<T>(s: seq<T>, draws: seq<real>)
    requires |draws| == |s|
    requires forall k :: 0 <= k < |draws| ==> Unit(draws[k])
    ensures |Shuffled(s, draws)| == |s|
    ensures multiset(Shuffled(s, draws)) == multiset(s)
  {
    if |s| > 0 {
      ShuffleFromPermutes(s, draws, |s| - 1);
    }
  }

  lemma {:induction false} ShuffleFromPermutes<T>(s: seq<T>, draws: seq<real>, i: nat)
    requires i < |s| && |draws| == |s|
    requires forall k :: 0 <= k < |draws| ==> Unit(draws[k])
    ensures |ShuffleFrom(s, draws, i)| == |s|
    ensures multiset(ShuffleFrom(s, draws, i)) == multiset(s)
    decreases i
  {
    if i > 0 {
      var t := Swap(s, i, PickIndex(draws[i], i + 1));
      SwapPermutes(s, i, PickIndex(draws[i], i + 1));
      ShuffleFromPermutes(t, draws, i - 1);
    }
  }

  /** A permutation keeps the elements pairwise distinct. */
  lemma PermutationKeepsDistinct<T>(s: seq<T>, t: seq<T>)
    requires multiset(s) == multiset(t) && Distinct(s)
    ensures Distinct(t)
  {
    forall i, j | 0 <= i < j < |t|
      ensures t[i] != t[j]
    {
      if t[i] == t[j] {
        var x := t[i];
        assert multiset(t[..i] + t[i..j] + t[j..])[x] >= 2 by {
          assert t == t[..i] + t[i..j] + t[j..];
          assert t[i..j][0] == x && t[j..][0] == x;
          assert x in multiset(t[i..j]) && x in multiset(t[j..]);
          assert multiset(t[..i] + t[i..j] + t[j..]) ==
            multiset(t[..i]) + multiset(t[i..j]) + multiset(t[j..]);
        }
        assert t == t[..i] + t[i..j] + t[j..];
        DistinctOnce(s, x);
        assert false;
      }
    }
  }

  lemma DistinctOnce<T>(s: seq<T>, x: T)
    requires Distinct(s)
    ensures multiset(s)[x] <= 1
  {
    if |s| > 0 {
      assert s == [s[0]] + s[1..];
      assert Distinct(s[1..]) by {
        forall i, j | 0 <= i < j < |s[1..]|
          ensures s[1..][i] != s[1..][j]
        {
          assert s[1..][i] == s[i + 1] && s[1..][j] == s[j + 1];
        }
      }
      DistinctOnce(s[1..], x);
      if s[0] == x {
        assert x !in s[1..] by {
          forall k | 0 <= k < |s[1..]|
            ensures s[1..][k] != x
          {
            assert s[1..][k] == s[k + 1];
          }
        }
      }
    }
  }

  /** `shuffleArray`: swaps in place, from the last position down to 1, and
      returns the very array it was given. */
  method ShuffleArray<T>(a: array<T>, draws: seq<real>) returns (r: array<T>)
    requires |draws| == a.Length
    requires forall k :: 0 <= k < |draws| ==> Unit(draws[k])
    modifies a
    ensures r == a
    ensures a[..] == Shuffled(old(a[..]), draws)
    ensures multiset(a[..]) == multiset(old(a[..]))
  {
    if a.Length > 0 {
      var i := a.Length - 1;
      while i > 0
        invariant 0 <= i < a.Length
        invariant ShuffleFrom(a[..], draws, i) == ShuffleFrom(old(a[..]), draws, a.Length - 1)
        decreases i
      {
        ghost var before := a[..];
        var j := PickIndex(draws[i], i + 1);
        var ai, aj := a[i], a[j];
        a[i] := aj;
        a[j] := ai;
        assert a[..] == Swap(before, i, j);
        i := i - 1;
      }
    }
    ShuffledPermutes(old(a[..]), draws);
    r := a;
  }

  /** Steps 6 and 7 of `generateArt`: select the shown layers, then shuffle
      them into the order they are drawn in. `draws` holds one draw per
      possible loop position of the shuffle; only the first `|active|` are used. */
  method ComposeLayers(coin1: real, coin2: real, coin3: real, emergency: real, draws: seq<real>)
    returns (active: seq<Layer>, layers: seq<Layer>)
    requires Unit(coin1) && Unit(coin2) && Unit(coin3) && Unit(emergency)
    requires |draws| == 3 && forall k :: 0 <= k < |draws| ==> Unit(draws[k])
    ensures 1 <= |active| <= 3 && InLayerOrder(active)
    ensures layers == Shuffled(active, draws[..|active|])
    ensures multiset(layers) == multiset(active)
    ensures 1 <= |layers| <= 3 && Distinct(layers)
  {
    active := SelectActiveLayers(coin1, coin2, coin3, emergency);
    var a := new Layer[|active|](i requires 0 <= i < |active| => active[i]);
    assert a[..] == active;
    var shuffled := ShuffleArray(a, draws[..|active|]);
    layers := shuffled[..];
    PermutationKeepsDistinct(active, layers);
  }
}
