/**
 The two slice helpers of the room code: `uniqueSliceElements`, which drops
 repeated elements keeping the first occurrence of each, and `deleteElement`,
 which drops every player with a given ID. Each method is proved against a
 specification function (`Dedup`, `FilterOut`), and the lemmas below state
 what those functions promise.
 */
module Slices {
  import opened Entities

  /** No element occurs twice in `s`. */
  predicate NoDuplicates<T(==)>(s: seq<T>)
  {
    forall i, j :: 0 <= i < j < |s| ==> s[i] != s[j]
  }

  /** The elements of `s` with every repetition after the first dropped. */
  function Dedup<T(==)>(s: seq<T>): seq<T>
    decreases |s|
  {
    if s == [] then []
    else
      var d := Dedup(s[..|s| - 1]);
      if s[|s| - 1] in d then d else d + [s[|s| - 1]]
  }

  /** The position of the first occurrence of `x` in `s`. */
  function FirstIndex<T(==)>(s: seq<T>, x: T): (k: nat)
    requires x in s
    ensures k < |s| && s[k] == x && x !in s[..k]
  {
    if s[0] == x then 0
    else
      var k := 1 + FirstIndex(s[1..], x);
      assert s[..k] == [s[0]] + s[1..][..k - 1];
      k
  }

  /** The players of `players` whose ID is not `id`, in their original order. */
  function FilterOut(players: seq<Player>, id: Uuid): seq<Player>
    decreases |players|
  {
    if players == [] then []
    else
      var f := FilterOut(players[..|players| - 1], id);
      if players[|players| - 1].id != id then f + [players[|players| - 1]] else f
  }

  /** How many entries of `players` carry the ID `id`. */
  function CountId(players: seq<Player>, id: Uuid): nat
    decreases |players|
  {
    if players == [] then 0
    else CountId(players[..|players| - 1], id) + (if players[|players| - 1].id == id then 1 else 0)
  }

  /** No two entries of `players` carry the same ID. */
  predicate IdsDistinct(players: seq<Player>)
  {
    forall i, j :: 0 <= i < j < |players| ==> players[i].id != players[j].id
  }

  // ---------------------------------------------------------------------------
  // Properties of Dedup
  // ---------------------------------------------------------------------------

  lemma NoDuplicatesSnoc<T>(s: seq<T>, x: T)
    ensures NoDuplicates(s + [x]) <==> NoDuplicates(s) && x !in s
  {
    if NoDuplicates(s + [x]) {
      assert forall i, j :: 0 <= i < j < |s| ==> s[i] == (s + [x])[i] && s[j] == (s + [x])[j];
      forall i | 0 <= i < |s| ensures s[i] != x {
        assert (s + [x])[i] == s[i] && (s + [x])[|s|] == x;
      }
    }
  }

  /** Dedup keeps exactly the elements of its input. */
  lemma {:induction false} DedupElements<T>(s: seq<T>)
    ensures forall x :: x in Dedup(s) <==> x in s
    decreases |s|
  {
    if s != [] {
      var p := s[..|s| - 1];
      DedupElements(p);
      assert s == p + [s[|s| - 1]];
    }
  }

  /** Dedup never returns a repeated element. */
  lemma {:induction false} DedupNoDuplicates<T>(s: seq<T>)
    ensures NoDuplicates(Dedup(s))
    decreases |s|
  {
    if s != [] {
      var p := s[..|s| - 1];
      DedupNoDuplicates(p);
      NoDuplicatesSnoc(Dedup(p), s[|s| - 1]);
    }
  }

  /** Dedup leaves its input unchanged exactly when the input has no repetition. */
  lemma {:induction false} DedupIdentity<T>(s: seq<T>)
    ensures Dedup(s) == s <==> NoDuplicates(s)
    decreases |s|
  {
    DedupNoDuplicates(s);
    if s != [] && NoDuplicates(s) {
      var p := s[..|s| - 1];
      var x := s[|s| - 1];
      assert s == p + [x];
      NoDuplicatesSnoc(p, x);
      DedupIdentity(p);
      DedupElements(p);
    }
  }

  lemma DedupMember<T>(s: seq<T>, y: T)
    requires y in Dedup(s)
    ensures y in s
  {
    DedupElements(s);
  }

  lemma FirstIndexSnoc<T>(p: seq<T>, x: T, y: T)
    requires y in p
    ensures FirstIndex(p + [x], y) == FirstIndex(p, y)
  {
    var k := FirstIndex(p, y);
    var k' := FirstIndex(p + [x], y);
    assert (p + [x])[..k'] == p[..k'] || k' == |p|;
  }

  /** Two kept elements appear in Dedup in the order of their first occurrence in `s`. */
  lemma {:induction false} DedupOrderPair<T>(s: seq<T>, i: nat, j: nat)
    requires i < j < |Dedup(s)|
    ensures Dedup(s)[i] in s && Dedup(s)[j] in s
    ensures FirstIndex(s, Dedup(s)[i]) < FirstIndex(s, Dedup(s)[j])
    decreases |s|
  {
    var p := s[..|s| - 1];
    var x := s[|s| - 1];
    var d := Dedup(p);
    assert Dedup(s) == d || Dedup(s) == d + [x];
    DedupMember(p, d[i]);
    assert s == p + [x];
    FirstIndexSnoc(p, x, d[i]);
    if j < |d| {
      assert Dedup(s)[i] == d[i] && Dedup(s)[j] == d[j];
      DedupOrderPair(p, i, j);
      DedupMember(p, d[j]);
      FirstIndexSnoc(p, x, d[j]);
    } else {
      DedupElements(p);
      assert x !in d && Dedup(s) == d + [x];
      assert Dedup(s)[i] == d[i] && Dedup(s)[j] == x;
      assert FirstIndex(s, x) == |p|;
    }
  }

  /** Dedup lists the elements of `s` in the order of their first occurrence. */
  lemma DedupFirstOccurrenceOrder<T>(s: seq<T>)
    ensures forall x :: x in Dedup(s) ==> x in s
    ensures forall i, j :: 0 <= i < j < |Dedup(s)| ==>
              FirstIndex(s, Dedup(s)[i]) < FirstIndex(s, Dedup(s)[j])
  {
    DedupElements(s);
    forall i, j | 0 <= i < j < |Dedup(s)|
      ensures FirstIndex(s, Dedup(s)[i]) < FirstIndex(s, Dedup(s)[j])
    {
      DedupOrderPair(s, i, j);
    }
  }

  // ---------------------------------------------------------------------------
  // Properties of FilterOut and CountId
  // ---------------------------------------------------------------------------

  /** FilterOut keeps exactly the players whose ID differs from `id`. */
  lemma {:induction false} FilterOutElements(players: seq<Player>, id: Uuid)
    ensures forall p :: p in FilterOut(players, id) <==> p in players && p.id != id
    decreases |players|
  {
    if players != [] {
      var q := players[..|players| - 1];
      FilterOutElements(q, id);
      assert players == q + [players[|players| - 1]];
    }
  }

  /** FilterOut drops exactly as many entries as carry the ID `id`. */
  lemma {:induction false} FilterOutLength(players: seq<Player>, id: Uuid)
    ensures |FilterOut(players, id)| == |players| - CountId(players, id)
    decreases |players|
  {
    if players != [] {
      FilterOutLength(players[..|players| - 1], id);
    }
  }

  /** FilterOut works entry by entry, so it keeps the survivors in their order. */
  lemma {:induction false} FilterOutConcat(a: seq<Player>, b: seq<Player>, id: Uuid)
    ensures FilterOut(a + b, id) == FilterOut(a, id) + FilterOut(b, id)
    decreases |b|
  {
    if b == [] {
      assert a + b == a;
    } else {
      var c := b[..|b| - 1];
      assert (a + b)[..|a + b| - 1] == a + c;
      FilterOutConcat(a, c, id);
    }
  }

  /** FilterOut of a single player keeps it exactly when its ID differs. */
  lemma FilterOutSingle(p: Player, id: Uuid)
    ensures FilterOut([p], id) == if p.id != id then [p] else []
  {
    assert [p][..0] == [];
  }

  /** FilterOut introduces no repetition. */
  lemma {:induction false} FilterOutNoDuplicates(players: seq<Player>, id: Uuid)
    requires NoDuplicates(players)
    ensures NoDuplicates(FilterOut(players, id))
    decreases |players|
  {
    if players != [] {
      var q := players[..|players| - 1];
      var x := players[|players| - 1];
      assert players == q + [x];
      NoDuplicatesSnoc(q, x);
      FilterOutNoDuplicates(q, id);
      FilterOutElements(q, id);
      NoDuplicatesSnoc(FilterOut(q, id), x);
    }
  }

  /** No entry carries `id` exactly when the count of `id` is zero. */
  lemma {:induction false} CountIdZero(players: seq<Player>, id: Uuid)
    ensures CountId(players, id) == 0 <==> forall p :: p in players ==> p.id != id
    decreases |players|
  {
    if players != [] {
      var q := players[..|players| - 1];
      CountIdZero(q, id);
      assert players == q + [players[|players| - 1]];
    }
  }

  /** With distinct IDs, each member's ID occurs exactly once. */
  lemma {:induction false} CountIdDistinct(players: seq<Player>, p: Player)
    requires IdsDistinct(players)
    requires p in players
    ensures CountId(players, p.id) == 1
    decreases |players|
  {
    var q := players[..|players| - 1];
    var x := players[|players| - 1];
    assert players == q + [x];
    if x == p {
      CountIdZero(q, p.id);
      forall r | r in q ensures r.id != p.id {
        var i :| 0 <= i < |q| && q[i] == r;
        assert players[i] == r;
      }
    } else {
      assert p in q;
      assert IdsDistinct(q) by {
        forall i, j | 0 <= i < j < |q| ensures q[i].id != q[j].id {
          assert q[i] == players[i] && q[j] == players[j];
        }
      }
      CountIdDistinct(q, p);
      var i :| 0 <= i < |q| && q[i] == p;
      assert players[i] == p;
    }
  }

  // ---------------------------------------------------------------------------
  // The helpers themselves
  // ---------------------------------------------------------------------------

  /**
   uniqueSliceElements: the input without repetitions (first occurrences, in
   input order) and a flag telling whether the input was already free of them.
   The `seen` map of the source only ever stores `true`, so it is a set here.
   */
  method UniqueSliceElements<T(==)>(inputSlice: seq<T>) returns (uniqueSlice: seq<T>, onlyUnique: bool)
    ensures uniqueSlice == Dedup(inputSlice)
    ensures onlyUnique <==> NoDuplicates(inputSlice)
    ensures NoDuplicates(uniqueSlice)
    ensures forall x :: x in uniqueSlice <==> x in inputSlice
    ensures onlyUnique ==> uniqueSlice == inputSlice
  {
    onlyUnique := true;
    uniqueSlice := [];
    var seen: set<T> := {};
    var i := 0;
    while i < |inputSlice|
      invariant 0 <= i <= |inputSlice|
      invariant uniqueSlice == Dedup(inputSlice[..i])
      invariant forall x :: x in seen <==> x in inputSlice[..i]
      invariant onlyUnique <==> NoDuplicates(inputSlice[..i])
    {
      var element := inputSlice[i];
      assert inputSlice[..i + 1] == inputSlice[..i] + [element];
      assert inputSlice[..i + 1][..i] == inputSlice[..i];
      DedupElements(inputSlice[..i]);
      NoDuplicatesSnoc(inputSlice[..i], element);
      if element !in seen {
        uniqueSlice := uniqueSlice + [element];
        seen := seen + {element};
      } else {
        onlyUnique := false;
      }
      i := i + 1;
    }
    assert inputSlice[..i] == inputSlice;
    DedupNoDuplicates(inputSlice);
    DedupElements(inputSlice);
    DedupIdentity(inputSlice);
  }

  /**
   deleteElement: the players whose ID is not `elem`, in their original order.
   The source allocates a slice of capacity `len(players) - 1`, which panics on
   an empty input, hence the precondition.
   */
  method DeleteElement(players: seq<Player>, elem: Uuid) returns (result: seq<Player>)
    requires |players| > 0
    ensures result == FilterOut(players, elem)
    ensures forall p :: p in result <==> p in players && p.id != elem
    ensures |result| == |players| - CountId(players, elem)
  {
    result := [];
    var i := 0;
    while i < |players|
      invariant 0 <= i <= |players|
      invariant result == FilterOut(players[..i], elem)
    {
      var player := players[i];
      assert players[..i + 1][..i] == players[..i];
      if player.id != elem {
        result := result + [player];
      }
      i := i + 1;
    }
    assert players[..i] == players;
    FilterOutElements(players, elem);
    FilterOutLength(players, elem);
  }
}
