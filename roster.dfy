/** The roster (GameManager.allCards): the cards not drawn yet, the index a
    draw picks, the removal of the drawn card, and the count of characters. */
module Roster {
  import opened Cards

  /** The index InstantiateRandomCard reads: floor(value * (n - 0.1)). */
  function DrawIndex(value: UnitInterval, n: nat): (i: int)
    requires 1 <= n
    ensures 0 <= i < n
  {
    DrawIndexInRange(value, n);
    (value * (n as real - 0.1)).Floor
  }

  /** The product behind DrawIndex lies in [0, n - 0.1] when the value lies in [0, 1]. */
  lemma DrawIndexInRange(value: UnitInterval, n: nat)
    requires 1 <= n
    ensures 0 <= (value * (n as real - 0.1)).Floor < n
  {
    var w := n as real - 0.1;
    assert 0.0 < w;
    assert 0.0 <= value * w <= w by {
      assert value * w <= 1.0 * w;
    }
  }

  /** Although the formula is not exactly uniform, every position of a
      roster of n cards is picked by some random value. */
  lemma EveryIndexDrawable(n: nat, i: nat)
    requires i < n
    ensures exists v: UnitInterval :: DrawIndex(v, n) == i
  {
    var w := n as real - 0.1;
    var v := i as real / w;
    assert 0.0 <= v <= 1.0 by {
      assert i as real <= w;
    }
    assert v * w == i as real;
    assert DrawIndex(v, n) == i;
  }

  /** List.Remove: the roster without its first element equal to `x`;
      unchanged when there is none. */
  function RemoveFirst(s: seq<Prefab>, x: Prefab): seq<Prefab>
  {
    if s == [] then []
    else if s[0] == x then s[1..]
    else [s[0]] + RemoveFirst(s[1..], x)
  }

  /** The position of the first element equal to `x`, which must occur. */
  function FirstIndex(s: seq<Prefab>, x: Prefab): (j: nat)
    requires x in s
    ensures j < |s| && s[j] == x
    ensures forall k :: 0 <= k < j ==> s[k] != x
  {
    if s[0] == x then 0 else 1 + FirstIndex(s[1..], x)
  }

  /** The number of character cards in a roster (the counting loop of CreateNewBattle). */
  function CharacterCount(s: seq<Prefab>): (n: nat)
    ensures n <= |s|
  {
    if s == [] then 0
    else (if s[0].card.Character? then 1 else 0) + CharacterCount(s[1..])
  }

  predicate HasCharacterCard(s: seq<Prefab>)
  {
    exists i :: 0 <= i < |s| && s[i].card.Character?
  }

  // ---------------------------------------------------------------- lemmas

  /** Removing a card that occurs cuts out exactly its first occurrence. */
  lemma {:induction false} RemoveFirstCutsFirst(s: seq<Prefab>, x: Prefab)
    requires x in s
    ensures RemoveFirst(s, x) == s[..FirstIndex(s, x)] + s[FirstIndex(s, x) + 1..]
  {
    if s[0] != x {
      RemoveFirstCutsFirst(s[1..], x);
      var j := FirstIndex(s[1..], x);
      assert s[1..][..j] == s[1..j + 1];
      assert [s[0]] + s[1..j + 1] == s[..j + 1];
      assert s[1..][j + 1..] == s[j + 2..];
    }
  }

  /** Removing a card that occurs takes exactly one copy of it from the roster. */
  lemma {:induction false} RemoveFirstTakesOne(s: seq<Prefab>, x: Prefab)
    requires x in s
    ensures |RemoveFirst(s, x)| == |s| - 1
    ensures multiset(RemoveFirst(s, x)) == multiset(s) - multiset{x}
  {
    assert s == [s[0]] + s[1..];
    if s[0] != x {
      RemoveFirstTakesOne(s[1..], x);
    }
  }

  /** Removing a card that occurs deletes exactly its first occurrence: the
      roster loses one element and the others keep their order. */
  lemma RemoveFirstDeletesFirst(s: seq<Prefab>, x: Prefab)
    requires x in s
    ensures RemoveFirst(s, x) == s[..FirstIndex(s, x)] + s[FirstIndex(s, x) + 1..]
    ensures |RemoveFirst(s, x)| == |s| - 1
    ensures multiset(RemoveFirst(s, x)) == multiset(s) - multiset{x}
  {
    RemoveFirstCutsFirst(s, x);
    RemoveFirstTakesOne(s, x);
  }

  /** The counting loop finds no character exactly when the roster has none. */
  lemma {:induction false} CharacterCountZero(s: seq<Prefab>)
    ensures CharacterCount(s) == 0 <==> !HasCharacterCard(s)
  {
    if s != [] {
      CharacterCountZero(s[1..]);
      if s[0].card.Character? {
        assert HasCharacterCard(s);
      } else if HasCharacterCard(s) {
        var i :| 0 <= i < |s| && s[i].card.Character?;
        assert s[1..][i - 1].card.Character?;
      } else {
        forall i | 0 <= i < |s[1..]| ensures !s[1..][i].card.Character? {
          assert s[1..][i] == s[i + 1];
        }
      }
    }
  }

  /** CharacterCount of a prefix one longer: the loop's step. */
  lemma {:induction false} CharacterCountSnoc(s: seq<Prefab>, c: Prefab)
    ensures CharacterCount(s + [c]) == CharacterCount(s) + (if c.card.Character? then 1 else 0)
  {
    if s == [] {
      assert [c][1..] == [];
    } else {
      assert (s + [c])[1..] == s[1..] + [c];
      CharacterCountSnoc(s[1..], c);
    }
  }
}
