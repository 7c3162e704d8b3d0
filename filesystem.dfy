/**
 * The part of the file system the tool touches: one folder at a time, as a
 * map from entry names to what each entry holds.
 */
module FileSystem {

  newtype byte = b: int | 0 <= b < 256

  type Bytes = seq<byte>

  /** One record of a three-column CSV file. */
  datatype Row = Row(first: string, second: string, third: string)

  /**
   * What a directory entry holds: downloaded bytes, a CSV table (the
   * skip-list store's file), or a sub-directory.
   */
  datatype Node = File(data: Bytes) | Table(rows: seq<Row>) | Directory

  /** `Path(folder) / name` is the folder itself or its parent for these names. */
  predicate NamesFolder(name: string) {
    name == "" || name == "." || name == ".."
  }

  /** A name that an entry of a folder can have. */
  predicate EntryName(name: string) {
    !NamesFolder(name) && '/' !in name
  }

  /** `(Path(folder) / name).exists()` */
  predicate PathExists(onDisk: bool, entries: map<string, Node>, name: string) {
    onDisk && (NamesFolder(name) || name in entries)
  }

  /** `(Path(folder) / name).is_file()`: a regular file, not a directory. */
  predicate IsRegularFile(entries: map<string, Node>, name: string) {
    name in entries && !entries[name].Directory?
  }

  /** `open(Path(folder) / name, "w")` succeeds for these names. */
  predicate Writable(onDisk: bool, entries: map<string, Node>, name: string) {
    onDisk && EntryName(name) && !(name in entries && entries[name].Directory?)
  }

  /**
   * Which operations the operating system refuses: writing the skip-list
   * store while recording a name in `addFails`, unlinking a name in
   * `unlinkFails`.
   */
  datatype Faults = Faults(addFails: set<string>, unlinkFails: set<string>)

  const NO_FAULTS := Faults({}, {})

  /** `a` and `b` agree on every name but `name`. */
  ghost predicate SameExcept(a: map<string, Node>, b: map<string, Node>, name: string) {
    forall n :: n != name ==> (n in a <==> n in b) && (n in a ==> a[n] == b[n])
  }

  class Folder {
    var onDisk: bool
    var entries: map<string, Node>

    ghost predicate Valid()
      reads this
    {
      && (!onDisk ==> entries == map[])
      && forall n :: n in entries ==> EntryName(n)
    }

    constructor (onDisk: bool, entries: map<string, Node>)
      requires !onDisk ==> entries == map[]
      requires forall n :: n in entries ==> EntryName(n)
      ensures Valid() && this.onDisk == onDisk && this.entries == entries
    {
      this.onDisk := onDisk;
      this.entries := entries;
    }

    /** `folder.mkdir(parents=True, exist_ok=True)` */
    method Mkdir()
      requires Valid()
      modifies this
      ensures Valid() && onDisk && entries == old(entries)
    {
      onDisk := true;
    }

    /** `shutil.rmtree(folder)` followed by `folder.mkdir()`. */
    method Clear()
      requires Valid() && onDisk
      modifies this
      ensures Valid() && onDisk && entries == map[]
    {
      entries := map[];
    }

    /**
     * `folder.iterdir()`: every entry name once, in an order the operating
     * system chooses.
     */
    method IterDir() returns (names: seq<string>)
      requires onDisk
      ensures |names| == |entries|
      ensures forall n :: n in names <==> n in entries
      ensures forall i, j :: 0 <= i < j < |names| ==> names[i] != names[j]
    {
      var rest := entries.Keys;
      names := [];
      while rest != {}
        invariant rest <= entries.Keys
        invariant forall n :: n in names <==> n in entries && n !in rest
        invariant |names| + |rest| == |entries|
        invariant forall i, j :: 0 <= i < j < |names| ==> names[i] != names[j]
        decreases |rest|
      {
        var n :| n in rest;
        rest := rest - {n};
        names := names + [n];
      }
    }

    /** `len(list(folder.iterdir()))` */
    method CountEntries() returns (n: nat)
      requires onDisk
      ensures n == |entries|
    {
      n := |entries|;
    }

    /** Writes `data` to `folder / name`; `ok` is false where `open` raises. */
    method WriteFile(name: string, data: Bytes) returns (ok: bool)
      requires Valid()
      modifies this
      ensures Valid() && onDisk == old(onDisk)
      ensures ok == Writable(old(onDisk), old(entries), name)
      ensures entries == if ok then old(entries)[name := File(data)] else old(entries)
    {
      ok := Writable(onDisk, entries, name);
      if ok {
        entries := entries[name := File(data)];
      }
    }

    /** Writes a CSV table to `folder / name`, replacing what was there. */
    method WriteTable(name: string, rows: seq<Row>)
      requires Valid() && Writable(onDisk, entries, name)
      modifies this
      ensures Valid() && onDisk
      ensures entries == old(entries)[name := Table(rows)]
    {
      entries := entries[name := Table(rows)];
    }

    /**
     * `(folder / name).unlink()`; `fails` stands for an operating-system
     * refusal (permissions), and a missing entry or a directory cannot be
     * unlinked either.
     */
    method Unlink(name: string, fails: bool) returns (ok: bool)
      requires Valid()
      modifies this
      ensures Valid() && onDisk == old(onDisk)
      ensures ok == (!fails && IsRegularFile(old(entries), name))
      ensures entries == if ok then old(entries) - {name} else old(entries)
    {
      ok := !fails && IsRegularFile(entries, name);
      if ok {
        entries := entries - {name};
      }
    }
  }
}
