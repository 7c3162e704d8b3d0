/**
 * `purge_small_images`: every regular file of the folder that decodes to an
 * image narrower than the minimum width is put on the skip list as
 * `TOO_SMALL` and then deleted; errors are logged and the loop goes on.
 */
module TooSmall {
  import opened Wrappers
  import opened OrderedDict
  import opened FileSystem
  import opened Blacklist
  import opened ImageAnalysis

  /** `MIN_IMAGE_WIDTH` in the configuration. */
  const MIN_IMAGE_WIDTH: nat := 1920

  /** A regular file that decodes to an image narrower than the minimum. */
  predicate Small(entries: map<string, Node>, name: string, decoder: Decoder) {
    && IsRegularFile(entries, name)
    && var img := Decode(entries[name], decoder);
       img.Some? && img.value.width < MIN_IMAGE_WIDTH
  }

  /** A small file whose skip-list entry gets written. */
  predicate Listed(entries: map<string, Node>, name: string, decoder: Decoder, faults: Faults) {
    Small(entries, name, decoder) && name !in faults.addFails
  }

  /** A listed file whose unlink succeeds. */
  predicate Removed(entries: map<string, Node>, name: string, decoder: Decoder, faults: Faults) {
    Listed(entries, name, decoder, faults) && name !in faults.unlinkFails
  }

  /** What a purge does to one file, in the order it does it. */
  datatype Action = AddedToBlacklist(name: string) | Unlinked(name: string) | Error(name: string)

  /** Every unlink comes right after the skip-list write for the same file. */
  predicate ListedBeforeUnlinked(actions: seq<Action>) {
    forall i :: 0 <= i < |actions| && actions[i].Unlinked? ==>
      i > 0 && actions[i - 1] == AddedToBlacklist(actions[i].name)
  }

  /** The store after listing the files of `names` that `Listed` picks. */
  ghost predicate StoreAfter(stored: Data, before: Data, names: set<string>, entries: map<string, Node>,
                       decoder: Decoder, faults: Faults, now: string) {
    forall k :: Get(stored, k) ==
      if k in names && Listed(entries, k, decoder, faults) then Some(Info(Value(TooSmall), now))
      else Get(before, k)
  }

  /** The folder after removing the files of `names` that `Removed` picks; `skip` is left out of the comparison. */
  ghost predicate FolderAfter(after: map<string, Node>, before: map<string, Node>, names: set<string>,
                        decoder: Decoder, faults: Faults, skip: Option<string>) {
    forall n :: Some(n) != skip ==>
      && (n in after <==> n in before && !(n in names && Removed(before, n, decoder, faults)))
      && (n in after ==> after[n] == before[n])
  }

  /** The store's own file when it lives in `folder`. */
  function StoreIn(folder: Folder, db: BlacklistDB): Option<string>
    reads db
  {
    if db.folder == folder then Some(db.name) else None
  }

  /**
   * `purge_small_images(folder, blacklist_db)`. `visited` is the order
   * `iterdir` lists the folder's entries in, each once; `now` the time every
   * skip-list write records; `faults` the writes and unlinks that fail.
   */
  method PurgeSmallImages(folder: Folder, db: BlacklistDB, decoder: Decoder, now: string, faults: Faults)
    returns (visited: seq<string>, actions: seq<Action>)
    requires folder.Valid() && folder.onDisk && db.Valid()
    modifies folder, db.folder
    ensures folder.Valid() && folder.onDisk && db.Valid()
    ensures |visited| == |old(folder.entries)| && forall n :: n in visited <==> n in old(folder.entries)
    ensures StoreAfter(db.Stored(), old(db.Stored()), old(folder.entries).Keys, old(folder.entries), decoder, faults, now)
    ensures FolderAfter(folder.entries, old(folder.entries), old(folder.entries).Keys, decoder, faults, StoreIn(folder, db))
    ensures folder != db.folder ==> SameExcept(db.folder.entries, old(db.folder.entries), db.name)
    ensures ListedBeforeUnlinked(actions)
    ensures faults == NO_FAULTS ==> forall n :: n in folder.entries ==> !Small(folder.entries, n, decoder)
  {
    ghost var snapshot := folder.entries;
    ghost var stored := db.Stored();
    ghost var dbEntries := db.folder.entries;
    visited := folder.IterDir();
    actions := [];
    for i := 0 to |visited|
      invariant Progress(folder, db, snapshot, stored, dbEntries, Prefix(visited, i), decoder, faults, now)
      invariant ListedBeforeUnlinked(actions)
    {
      var name := visited[i];
      PrefixStep(visited, i);
      var acts := PurgeTurn(folder, db, name, decoder, now, faults, snapshot, stored, dbEntries, Prefix(visited, i));
      ListedBeforeUnlinkedAppend(actions, acts);
      actions := actions + acts;
    }
    assert Prefix(visited, |visited|) == snapshot.Keys;
    Completed(folder, db, snapshot, stored, dbEntries, decoder, faults, now);
  }

  lemma PrefixStep(names: seq<string>, i: nat)
    requires i < |names|
    requires forall k, l :: 0 <= k < l < |names| ==> names[k] != names[l]
    ensures names[i] !in Prefix(names, i)
    ensures Prefix(names, i + 1) == Prefix(names, i) + {names[i]}
  {
  }

  /** Once every entry has had its turn, the purge's promises hold. */
  lemma Completed(folder: Folder, db: BlacklistDB, snapshot: map<string, Node>, stored: Data,
                  dbEntries: map<string, Node>, decoder: Decoder, faults: Faults, now: string)
    requires Progress(folder, db, snapshot, stored, dbEntries, snapshot.Keys, decoder, faults, now)
    ensures folder.Valid() && folder.onDisk && db.Valid()
    ensures StoreAfter(db.Stored(), stored, snapshot.Keys, snapshot, decoder, faults, now)
    ensures FolderAfter(folder.entries, snapshot, snapshot.Keys, decoder, faults, StoreIn(folder, db))
    ensures folder != db.folder ==> SameExcept(db.folder.entries, dbEntries, db.name)
    ensures faults == NO_FAULTS ==> forall n :: n in folder.entries ==> !Small(folder.entries, n, decoder)
  {
    if faults == NO_FAULTS {
      NothingSmallLeft(folder.entries, snapshot, decoder, StoreIn(folder, db));
    }
  }

  /** The names among the first `i` of `names`. */
  ghost function Prefix(names: seq<string>, i: nat): set<string>
    requires i <= |names|
  {
    set j | 0 <= j < i :: names[j]
  }

  /** What the loop has done once the entries `done` have had their turn. */
  ghost predicate Progress(folder: Folder, db: BlacklistDB, snapshot: map<string, Node>, stored: Data,
                           dbEntries: map<string, Node>, done: set<string>, decoder: Decoder, faults: Faults, now: string)
    reads folder, db, db.folder
  {
    && folder.Valid() && folder.onDisk && db.Valid()
    && StoreAfter(db.Stored(), stored, done, snapshot, decoder, faults, now)
    && FolderAfter(folder.entries, snapshot, done, decoder, faults, StoreIn(folder, db))
    && (folder == db.folder && db.name in snapshot ==> snapshot[db.name].Table?)
    && (folder != db.folder ==> SameExcept(db.folder.entries, dbEntries, db.name))
  }

  /** One turn of the loop keeps `Progress`, one more entry done. */
  method PurgeTurn(folder: Folder, db: BlacklistDB, name: string, decoder: Decoder, now: string, faults: Faults,
                   ghost snapshot: map<string, Node>, ghost stored: Data, ghost dbEntries: map<string, Node>,
                   ghost done: set<string>)
    returns (acts: seq<Action>)
    requires Progress(folder, db, snapshot, stored, dbEntries, done, decoder, faults, now)
    requires name in snapshot && name !in done
    modifies folder, db.folder
    ensures Progress(folder, db, snapshot, stored, dbEntries, done + {name}, decoder, faults, now)
    ensures ListedBeforeUnlinked(acts) && (acts == [] || !acts[0].Unlinked?)
  {
    ghost var before := folder.entries;
    ghost var storedBefore := db.Stored();
    ghost var dbBefore := db.folder.entries;
    SameFileAsSnapshot(before, snapshot, done, name, decoder, faults, StoreIn(folder, db));
    acts := PurgeFile(folder, db, name, decoder, now, faults);
    StoreStep(db.Stored(), storedBefore, stored, done, name, snapshot, decoder, faults, now);
    FolderStep(folder.entries, before, snapshot, done, name, decoder, faults, StoreIn(folder, db));
    if folder != db.folder {
      assert SameExcept(db.folder.entries, dbBefore, db.name);
    }
  }

  /** Until its turn, an entry is what it was when the listing was taken. */
  lemma SameFileAsSnapshot(before: map<string, Node>, snapshot: map<string, Node>, done: set<string>, name: string,
                           decoder: Decoder, faults: Faults, skip: Option<string>)
    requires FolderAfter(before, snapshot, done, decoder, faults, skip)
    requires name in snapshot && name !in done
    requires skip == Some(name) ==> snapshot[name].Table? && (name in before ==> before[name].Table?)
    ensures Small(before, name, decoder) == Small(snapshot, name, decoder)
    ensures Listed(before, name, decoder, faults) == Listed(snapshot, name, decoder, faults)
    ensures Removed(before, name, decoder, faults) == Removed(snapshot, name, decoder, faults)
  {
  }

  lemma StoreStep(after: Data, before: Data, stored: Data, done: set<string>, name: string,
                  snapshot: map<string, Node>, decoder: Decoder, faults: Faults, now: string)
    requires StoreAfter(before, stored, done, snapshot, decoder, faults, now) && name !in done
    requires after == if Listed(snapshot, name, decoder, faults) then Set(before, name, Info(Value(TooSmall), now)) else before
    ensures StoreAfter(after, stored, done + {name}, snapshot, decoder, faults, now)
  {
  }

  lemma FolderStep(after: map<string, Node>, before: map<string, Node>, snapshot: map<string, Node>,
                   done: set<string>, name: string, decoder: Decoder, faults: Faults, skip: Option<string>)
    requires FolderAfter(before, snapshot, done, decoder, faults, skip) && name in snapshot && name !in done
    requires var expected := if Removed(snapshot, name, decoder, faults) then before - {name} else before;
             if skip.Some? then SameExcept(after, expected, skip.value) else after == expected
    ensures FolderAfter(after, snapshot, done + {name}, decoder, faults, skip)
  {
  }

  /** Without faults, no small image is left once every entry has had its turn. */
  lemma NothingSmallLeft(after: map<string, Node>, snapshot: map<string, Node>, decoder: Decoder, skip: Option<string>)
    requires FolderAfter(after, snapshot, snapshot.Keys, decoder, NO_FAULTS, skip)
    requires skip.Some? ==> skip.value in after ==> after[skip.value].Table?
    ensures forall n :: n in after ==> !Small(after, n, decoder)
  {
  }

  lemma ListedBeforeUnlinkedAppend(a: seq<Action>, b: seq<Action>)
    requires ListedBeforeUnlinked(a) && ListedBeforeUnlinked(b) && (b == [] || !b[0].Unlinked?)
    ensures ListedBeforeUnlinked(a + b)
  {
    forall i | 0 <= i < |a + b| && (a + b)[i].Unlinked?
      ensures i > 0 && (a + b)[i - 1] == AddedToBlacklist((a + b)[i].name)
    {
      if i >= |a| {
        assert (a + b)[i] == b[i - |a|];
        if i > |a| {
          assert (a + b)[i - 1] == b[i - |a| - 1];
        }
      }
    }
  }

  /**
   * One turn of the loop, on the entry `name`: skip anything but a regular
   * file; log a decode error; for a small image, write the skip-list entry,
   * then unlink, logging whichever of the two raises.
   */
  method PurgeFile(folder: Folder, db: BlacklistDB, name: string, decoder: Decoder, now: string, faults: Faults)
    returns (acts: seq<Action>)
    requires folder.Valid() && folder.onDisk && db.Valid()
    modifies folder, db.folder
    ensures folder.Valid() && folder.onDisk && db.Valid()
    ensures db.Stored() == if Listed(old(folder.entries), name, decoder, faults)
                           then Set(old(db.Stored()), name, Info(Value(TooSmall), now))
                           else old(db.Stored())
    ensures var expected := if Removed(old(folder.entries), name, decoder, faults) then old(folder.entries) - {name}
                            else old(folder.entries);
            if folder == db.folder then SameExcept(folder.entries, expected, db.name)
            else folder.entries == expected && SameExcept(db.folder.entries, old(db.folder.entries), db.name)
    ensures ListedBeforeUnlinked(acts) && (acts == [] || !acts[0].Unlinked?)
  {
    acts := [];
    if IsRegularFile(folder.entries, name) {
      var img := Decode(folder.entries[name], decoder);
      if img.None? {
        acts := [Error(name)];
      } else if img.value.width < MIN_IMAGE_WIDTH {
        assert folder.entries[name].File?;
        acts := ListAndUnlink(folder, db, name, now, faults);
      }
    }
  }

  /** A small image: write its skip-list entry, then unlink it; either may raise and is logged. */
  method ListAndUnlink(folder: Folder, db: BlacklistDB, name: string, now: string, faults: Faults)
    returns (acts: seq<Action>)
    requires folder.Valid() && folder.onDisk && db.Valid() && name in folder.entries && folder.entries[name].File?
    modifies folder, db.folder
    ensures folder.Valid() && folder.onDisk && db.Valid()
    ensures db.Stored() == if name !in faults.addFails then Set(old(db.Stored()), name, Info(Value(TooSmall), now))
                           else old(db.Stored())
    ensures var expected := if name !in faults.addFails && name !in faults.unlinkFails then old(folder.entries) - {name}
                            else old(folder.entries);
            if folder == db.folder then SameExcept(folder.entries, expected, db.name)
            else folder.entries == expected && SameExcept(db.folder.entries, old(db.folder.entries), db.name)
    ensures ListedBeforeUnlinked(acts) && (acts == [] || !acts[0].Unlinked?)
  {
    assert folder == db.folder ==> name != db.name;
    var added := db.Add(name, Member(TooSmall), now, name in faults.addFails);
    if !added {
      acts := [Error(name)];
    } else {
      var unlinked := UnlinkBesideStore(folder, db, name, name in faults.unlinkFails);
      acts := [AddedToBlacklist(name), if unlinked then Unlinked(name) else Error(name)];
    }
  }

  /** `child.unlink()` of an image file, which leaves the skip list as it is. */
  method UnlinkBesideStore(folder: Folder, db: BlacklistDB, name: string, fails: bool) returns (unlinked: bool)
    requires folder.Valid() && folder.onDisk && db.Valid() && name in folder.entries && folder.entries[name].File?
    modifies folder
    ensures folder.Valid() && folder.onDisk && db.Valid()
    ensures db.Stored() == old(db.Stored())
    ensures unlinked == !fails
    ensures folder.entries == if unlinked then old(folder.entries) - {name} else old(folder.entries)
    ensures folder != db.folder ==> db.folder.entries == old(db.folder.entries)
  {
    unlinked := folder.Unlink(name, fails);
  }
}
