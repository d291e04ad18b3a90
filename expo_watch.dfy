/** The set of pavilion codes the Expo bot notifies about, kept in memory and
    mirrored to a JSON file holding a list of codes. */
module ExpoWatch {
  import opened Wrappers

  /** What the watch file holds when the manager starts: absent, unreadable
      (any I/O or other error), not valid JSON, valid JSON that is not a
      list, or a list of codes. A decoded list is taken to hold only
      strings: a list with an unhashable element, on which `set(data)`
      raises and the load falls back to the empty set, is not represented
      by `CodeList`. */
  datatype WatchFile = Missing | Unreadable | Undecodable | NotAList | CodeList(codes: seq<string>)

  /** The set `_load_watched_pavilions` starts from: the codes of a JSON
      list, and the empty set in every other case (it never fails). */
  function LoadedCodes(file: WatchFile): (codes: set<string>)
    ensures file.CodeList? ==> forall c :: c in codes <==> c in file.codes
    ensures !file.CodeList? ==> codes == {}
  {
    if file.CodeList? then set c | c in file.codes else {}
  }

  /** Saving writes the set as a list and loading turns that list back into a
      set, so whatever order the list was written in, a reload restores the
      saved set. */
  lemma ReloadRestoresSaved(saved: set<string>, listing: seq<string>)
    requires forall c :: c in listing <==> c in saved
    ensures LoadedCodes(CodeList(listing)) == saved
  {
  }

  /** How `_save_watched_pavilions` ends. `open(..., "w")` truncates the file
      before `json.dump` writes to it, so an `IOError` raised by the open
      itself leaves the file as it was, while one raised while writing or
      closing leaves it empty or holding a cut-off list, which the next load
      cannot decode. */
  datatype SaveOutcome = Saved | OpenFailed | WriteFailed

  /** What the watch file holds after a save of `codes` that ended with
      `outcome`, when it held `before`. */
  function FileAfterSave(outcome: SaveOutcome, codes: set<string>, before: Option<set<string>>): (after: Option<set<string>>)
    ensures outcome.Saved? ==> after == Some(codes)
    ensures outcome.OpenFailed? ==> after == before
    ensures outcome.WriteFailed? ==> after.None?
  {
    match outcome
    case Saved => Some(codes)
    case OpenFailed => before
    case WriteFailed => None
  }

  class WatchedPavilionManager {
    var watchedCodes: set<string>
    /** The set the watch file holds as a list, or `None` while the file
        holds no readable list. */
    ghost var persisted: Option<set<string>>

    constructor (file: WatchFile)
      ensures watchedCodes == LoadedCodes(file)
      ensures persisted == if file.CodeList? then Some(watchedCodes) else None
    {
      watchedCodes := LoadedCodes(file);
      persisted := if file.CodeList? then Some(LoadedCodes(file)) else None;
    }

    /** `_save_watched_pavilions`: writes the current set. A failure is only
        logged; the in-memory set is kept, and the file is as `outcome` says. */
    method SaveWatchedPavilions(outcome: SaveOutcome)
      modifies this
      ensures watchedCodes == old(watchedCodes)
      ensures persisted == FileAfterSave(outcome, watchedCodes, old(persisted))
    {
      persisted := FileAfterSave(outcome, watchedCodes, persisted);
    }

    /** Adds `code`; `true` when it was not watched yet. Only an actual
        addition is saved. */
    method AddPavilion(code: string, outcome: SaveOutcome) returns (added: bool)
      modifies this
      ensures added <==> code !in old(watchedCodes)
      ensures watchedCodes == old(watchedCodes) + {code}
      ensures persisted == if added then FileAfterSave(outcome, watchedCodes, old(persisted)) else old(persisted)
    {
      if code in watchedCodes {
        return false;
      }
      watchedCodes := watchedCodes + {code};
      SaveWatchedPavilions(outcome);
      return true;
    }

    /** Removes `code`; `true` when it was watched. Only an actual removal is
        saved. */
    method RemovePavilion(code: string, outcome: SaveOutcome) returns (removed: bool)
      modifies this
      ensures removed <==> code in old(watchedCodes)
      ensures watchedCodes == old(watchedCodes) - {code}
      ensures persisted == if removed then FileAfterSave(outcome, watchedCodes, old(persisted)) else old(persisted)
    {
      if code !in watchedCodes {
        return false;
      }
      watchedCodes := watchedCodes - {code};
      SaveWatchedPavilions(outcome);
      return true;
    }

    /** `list(self.watched_codes)`: every watched code once, in no particular
        order. */
    method GetWatchedList() returns (codes: seq<string>)
      ensures forall c :: c in codes <==> c in watchedCodes
      ensures forall i, j :: 0 <= i < j < |codes| ==> codes[i] != codes[j]
      ensures |codes| == |watchedCodes|
    {
      codes := [];
      var rest := watchedCodes;
      while rest != {}
        invariant rest <= watchedCodes
        invariant forall c :: c in codes <==> c in watchedCodes - rest
        invariant forall i, j :: 0 <= i < j < |codes| ==> codes[i] != codes[j]
        invariant |codes| + |rest| == |watchedCodes|
        decreases |rest|
      {
        var c :| c in rest;
        assert c !in codes;
        codes := codes + [c];
        rest := rest - {c};
      }
    }
  }

  /** Adding a code that was not watched and removing it again restores the
      watched set. */
  method AddThenRemove(manager: WatchedPavilionManager, code: string, outcome: SaveOutcome)
    requires code !in manager.watchedCodes
    modifies manager
    ensures manager.watchedCodes == old(manager.watchedCodes)
  {
    var added := manager.AddPavilion(code, outcome);
    var removed := manager.RemovePavilion(code, outcome);
    assert added && removed;
  }

  /** The module's example session on a manager loaded from `file`: adding
      `HOH0` twice reports `false` the second time, removing a code never
      added reports `false`, and the final list is the starting set without
      `H1HF` plus `HOH0`, `TEST1` and `TEST2`. */
  method ExampleSession(file: WatchFile, outcome: SaveOutcome)
    returns (addedAgain: bool, removedUnknown: bool, finalList: seq<string>)
    requires "UNKNOWN_CODE" !in LoadedCodes(file)
    ensures !addedAgain && !removedUnknown
    ensures forall c :: c in finalList <==>
      c in (LoadedCodes(file) - {"H1HF"}) + {"HOH0", "TEST1", "TEST2"}
  {
    var manager := new WatchedPavilionManager(file);
    addedAgain := ExampleAdditions(manager, outcome);
    removedUnknown := ExampleRemovals(manager, outcome);
    finalList := manager.GetWatchedList();
  }

  method ExampleAdditions(manager: WatchedPavilionManager, outcome: SaveOutcome) returns (addedAgain: bool)
    modifies manager
    ensures !addedAgain
    ensures manager.watchedCodes == old(manager.watchedCodes) + {"HOH0", "H1HF"}
  {
    var _ := manager.AddPavilion("HOH0", outcome);
    var _ := manager.AddPavilion("H1HF", outcome);
    addedAgain := manager.AddPavilion("HOH0", outcome);
  }

  method ExampleRemovals(manager: WatchedPavilionManager, outcome: SaveOutcome) returns (removedUnknown: bool)
    requires "UNKNOWN_CODE" !in manager.watchedCodes - {"HOH0", "H1HF"}
    modifies manager
    ensures !removedUnknown
    ensures manager.watchedCodes == (old(manager.watchedCodes) - {"H1HF"}) + {"TEST1", "TEST2"}
  {
    var _ := manager.RemovePavilion("H1HF", outcome);
    removedUnknown := manager.RemovePavilion("UNKNOWN_CODE", outcome);
    var _ := manager.AddPavilion("TEST1", outcome);
    var _ := manager.AddPavilion("TEST2", outcome);
  }
}
