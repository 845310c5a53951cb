/**
 * The favourite-program menu of the navigation bar
 * (src/client/components/NavBar/FavoritePrograms.tsx): splitting the
 * programs into favourites and others, and toggling one program id in the
 * user's list of favourite program ids.
 */
module FavoritePrograms {
  import opened Seqs

  /** A program as the menu receives it: its id and whether the user marked it. */
  datatype ProgramEntry = ProgramEntry(id: string, isFavorite: bool)

  /** `ids` with every occurrence of `x` filtered out. */
  function RemoveAll(ids: seq<string>, x: string): (r: seq<string>)
    ensures x !in r
    ensures forall y :: y != x ==> (y in r <==> y in ids)
    ensures |r| <= |ids|
    ensures x in ids ==> |r| < |ids|
    ensures multiset(r) == multiset(ids)[x := 0]
  {
    if ids == [] then []
    else
      assert ids == [ids[0]] + ids[1..];
      (if ids[0] == x then [] else [ids[0]]) + RemoveAll(ids[1..], x)
  }

  /**
   * The new favourite list after clicking program `programId`: filtered out
   * when it is already a favourite, appended at the end otherwise.
   */
  function Toggle(favorites: seq<string>, programId: string): (r: seq<string>)
    ensures programId in r <==> programId !in favorites
    ensures programId !in favorites ==> r == favorites + [programId]
    ensures programId in favorites ==> |r| < |favorites|
  {
    if programId in favorites then RemoveAll(favorites, programId)
    else favorites + [programId]
  }

  /** The programs shown under the favourites header, in input order. */
  function FavoritesOf(programs: seq<ProgramEntry>): (r: seq<ProgramEntry>)
    ensures forall p :: p in r <==> p in programs && p.isFavorite
  {
    if programs == [] then []
    else (if programs[0].isFavorite then [programs[0]] else []) + FavoritesOf(programs[1..])
  }

  /** The remaining programs, in input order. */
  function OthersOf(programs: seq<ProgramEntry>): (r: seq<ProgramEntry>)
    ensures forall p :: p in r <==> p in programs && !p.isFavorite
  {
    if programs == [] then []
    else (if programs[0].isFavorite then [] else [programs[0]]) + OthersOf(programs[1..])
  }

  /** Filtering out an id that does not occur changes nothing. */
  lemma {:induction false} RemoveAllAbsent(ids: seq<string>, x: string)
    requires x !in ids
    ensures RemoveAll(ids, x) == ids
  {
    if ids != [] {
      RemoveAllAbsent(ids[1..], x);
      assert ids == [ids[0]] + ids[1..];
    }
  }

  /** Filtering distributes over concatenation. */
  lemma {:induction false} RemoveAllAppend(a: seq<string>, b: seq<string>, x: string)
    ensures RemoveAll(a + b, x) == RemoveAll(a, x) + RemoveAll(b, x)
  {
    if a == [] {
      assert a + b == b;
    } else {
      assert (a + b)[0] == a[0];
      assert (a + b)[1..] == a[1..] + b;
      RemoveAllAppend(a[1..], b, x);
    }
  }

  /** The filtered list keeps the other ids in their original order. */
  lemma {:induction false} RemoveAllSubsequence(ids: seq<string>, x: string)
    ensures IsSubsequence(RemoveAll(ids, x), ids)
  {
    if ids != [] {
      RemoveAllSubsequence(ids[1..], x);
      assert ids == [ids[0]] + ids[1..];
      if ids[0] == x {
        assert RemoveAll(ids, x) == RemoveAll(ids[1..], x);
        SubsequencePrepend(ids[0], RemoveAll(ids[1..], x), ids[1..]);
      } else {
        SubsequenceCons(ids[0], RemoveAll(ids[1..], x), ids[1..]);
      }
    }
  }

  /** Toggling a favourite id removes every occurrence of it. */
  lemma ToggleRemovesEveryOccurrence(favorites: seq<string>, programId: string)
    requires programId in favorites
    ensures forall i :: 0 <= i < |Toggle(favorites, programId)| ==> Toggle(favorites, programId)[i] != programId
    ensures IsSubsequence(Toggle(favorites, programId), favorites)
  {
    RemoveAllSubsequence(favorites, programId);
  }

  /**
   * Apart from the toggled id the list is unchanged: with that id filtered
   * out, the lists before and after are equal, element by element and in order.
   */
  lemma ToggleKeepsOthers(favorites: seq<string>, programId: string)
    ensures RemoveAll(Toggle(favorites, programId), programId) == RemoveAll(favorites, programId)
  {
    if programId in favorites {
      RemoveAllAbsent(RemoveAll(favorites, programId), programId);
    } else {
      RemoveAllAppend(favorites, [programId], programId);
      assert RemoveAll([programId], programId) == [];
    }
  }

  /** Toggling an id that is not a favourite twice gives back the original list. */
  lemma ToggleTwiceRestores(favorites: seq<string>, programId: string)
    requires programId !in favorites
    ensures Toggle(Toggle(favorites, programId), programId) == favorites
  {
    RemoveAllAppend(favorites, [programId], programId);
    RemoveAllAbsent(favorites, programId);
    assert RemoveAll([programId], programId) == [];
  }

  /** The two menu sections are disjoint and together hold every program, counted with multiplicity. */
  lemma {:induction false} PartitionCoversPrograms(programs: seq<ProgramEntry>)
    ensures forall p :: !(p in FavoritesOf(programs) && p in OthersOf(programs))
    ensures multiset(FavoritesOf(programs)) + multiset(OthersOf(programs)) == multiset(programs)
  {
    if programs != [] {
      var p, rest := programs[0], programs[1..];
      PartitionCoversPrograms(rest);
      assert programs == [p] + rest;
      assert multiset(programs) == multiset([p]) + multiset(rest);
    }
  }

  /** Each menu section keeps the programs in their input order. */
  lemma {:induction false} PartitionKeepsOrder(programs: seq<ProgramEntry>)
    ensures IsSubsequence(FavoritesOf(programs), programs)
    ensures IsSubsequence(OthersOf(programs), programs)
  {
    if programs != [] {
      var p, rest := programs[0], programs[1..];
      PartitionKeepsOrder(rest);
      assert programs == [p] + rest;
      if p.isFavorite {
        assert FavoritesOf(programs) == [p] + FavoritesOf(rest);
        assert OthersOf(programs) == OthersOf(rest);
        SubsequenceCons(p, FavoritesOf(rest), rest);
        SubsequencePrepend(p, OthersOf(rest), rest);
      } else {
        assert FavoritesOf(programs) == FavoritesOf(rest);
        assert OthersOf(programs) == [p] + OthersOf(rest);
        SubsequencePrepend(p, FavoritesOf(rest), rest);
        SubsequenceCons(p, OthersOf(rest), rest);
      }
    }
  }
}
