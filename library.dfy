/** The game library of `hyo-server/src/library.rs`: the games found in the
    library directory, keyed by the id in their manifest. Reading the directory
    and loading a game from disk are outside the model; `load` is taken over the
    sequence of what each directory entry yielded. */
module Library {

  /** A loaded game, as far as the library is concerned: its manifest id and the
      directory it was loaded from. */
  datatype LibGame = LibGame(id: string, dir: string)

  /** What one directory entry yields: an error reading the entry, a game that
      failed to load, or a loaded game. */
  datatype Attempt = EntryFailed | LoadFailed(dir: string) | Loaded(game: LibGame)

  /** The library built from `attempts`, in order: failed attempts are skipped
      and a game whose id is already taken is skipped. */
  function Build(attempts: seq<Attempt>): (r: map<string, LibGame>)
    ensures forall id :: id in r ==> r[id].id == id
  {
    if attempts == [] then map[]
    else
      var games, last := Build(attempts[..|attempts| - 1]), attempts[|attempts| - 1];
      if last.Loaded? && last.game.id !in games then games[last.game.id := last.game] else games
  }

  /** `load`'s loop over the directory entries. */
  method Load(attempts: seq<Attempt>) returns (games: map<string, LibGame>)
    ensures games == Build(attempts)
  {
    games := map[];
    for k := 0 to |attempts|
      invariant games == Build(attempts[..k])
    {
      assert attempts[..k + 1][..k] == attempts[..k];
      var attempt := attempts[k];
      if !attempt.Loaded? {
        continue;
      }
      var game := attempt.game;
      if game.id in games {
        continue;
      }
      games := games[game.id := game];
    }
    assert attempts[..|attempts|] == attempts;
  }

  /** The ids of the games loaded among `attempts`. */
  function LoadedIds(attempts: seq<Attempt>): (r: set<string>)
    ensures forall id :: id in r <==>
              exists i :: 0 <= i < |attempts| && attempts[i].Loaded? && attempts[i].game.id == id
  {
    if attempts == [] then {}
    else
      var init, last := attempts[..|attempts| - 1], attempts[|attempts| - 1];
      assert forall i :: 0 <= i < |init| ==> init[i] == attempts[i];
      LoadedIds(init) + (if last.Loaded? then {last.game.id} else {})
  }

  /** The number of loaded games among `attempts`. */
  function LoadedCount(attempts: seq<Attempt>): (r: nat)
    ensures r <= |attempts|
  {
    if attempts == [] then 0
    else
      LoadedCount(attempts[..|attempts| - 1]) + (if attempts[|attempts| - 1].Loaded? then 1 else 0)
  }

  /** The library holds a game for exactly the ids that some attempt loaded. */
  lemma {:induction false} BuildKeys(attempts: seq<Attempt>)
    ensures Build(attempts).Keys == LoadedIds(attempts)
  {
    if attempts != [] {
      BuildKeys(attempts[..|attempts| - 1]);
    }
  }

  /** The game kept for an id is the first one loaded with that id. */
  lemma {:induction false} BuildFirstWins(attempts: seq<Attempt>, i: nat)
    requires i < |attempts| && attempts[i].Loaded?
    requires forall j :: 0 <= j < i ==> !(attempts[j].Loaded? && attempts[j].game.id == attempts[i].game.id)
    ensures attempts[i].game.id in Build(attempts)
    ensures Build(attempts)[attempts[i].game.id] == attempts[i].game
  {
    var init := attempts[..|attempts| - 1];
    if i == |attempts| - 1 {
      BuildKeys(init);
      assert forall j :: 0 <= j < |init| ==> init[j] == attempts[j];
    } else {
      assert forall j :: 0 <= j <= i ==> init[j] == attempts[j];
      BuildFirstWins(init, i);
    }
  }

  /** The library only grows: a game kept after some attempts is still kept,
      unchanged, after more. */
  lemma {:induction false} BuildGrows(attempts: seq<Attempt>, more: seq<Attempt>)
    ensures forall id :: id in Build(attempts) ==>
              id in Build(attempts + more) && Build(attempts + more)[id] == Build(attempts)[id]
  {
    if more != [] {
      var init := more[..|more| - 1];
      assert (attempts + more)[..|attempts + more| - 1] == attempts + init;
      BuildGrows(attempts, init);
    } else {
      assert attempts + more == attempts;
    }
  }

  /** The library never holds more games than the attempts loaded. */
  lemma {:induction false} BuildSize(attempts: seq<Attempt>)
    ensures |Build(attempts)| <= LoadedCount(attempts)
  {
    if attempts != [] {
      BuildSize(attempts[..|attempts| - 1]);
    }
  }
}
