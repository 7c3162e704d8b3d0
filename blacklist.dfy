/**
 * The skip-list store: a CSV file of `filename,reason,timestamp` records
 * naming files never to download again. Every operation reads the whole file
 * into an insertion-ordered dict; `add` rewrites the whole file.
 */
module Blacklist {
  import opened Wrappers
  import opened OrderedDict
  import opened FileSystem
  import Strings
  import Sorting

  /** Why a file was put on the skip list. */
  datatype Reason = TooSmall | Deleted | BoringBackground

  /** The enum member's `.value`. */
  function Value(r: Reason): string {
    match r
    case TooSmall => "TOO_SMALL"
    case Deleted => "DELETED"
    case BoringBackground => "BORING_BACKGROUND"
  }

  /** `add` accepts an enum member or any string. */
  datatype ReasonArg = Member(reason: Reason) | Text(text: string)

  /** `reason.value if isinstance(reason, BlacklistReason) else reason` */
  function ReasonText(arg: ReasonArg): string {
    match arg
    case Member(r) => Value(r)
    case Text(t) => t
  }

  /** The value stored for one file: `{'reason': ..., 'timestamp': ...}`. */
  datatype Info = Info(reason: string, timestamp: string)

  /** The dict `_load_data` returns, in file order. */
  type Data = Dict<string, Info>

  const HEADER := Row("filename", "reason", "timestamp")

  function RowInfo(r: Row): Info {
    Info(r.second, r.third)
  }

  /** The dict built from data records, each record assigned in turn. */
  function Collect(records: seq<Row>): (d: Data)
    ensures UniqueKeys(d)
    decreases |records|
  {
    if records == [] then []
    else
      var last := records[|records| - 1];
      Set(Collect(records[..|records| - 1]), last.first, RowInfo(last))
  }

  lemma CollectStep(rows: seq<Row>, i: nat)
    requires 1 <= i < |rows|
    ensures Collect(rows[1..i + 1]) == Set(Collect(rows[1..i]), rows[i].first, RowInfo(rows[i]))
  {
    assert rows[1..i + 1][..i - 1] == rows[1..i];
  }

  /** What loading a file with these rows yields: the first row is the header. */
  function Parse(rows: seq<Row>): Data {
    if rows == [] then [] else Collect(rows[1..])
  }

  function EntryRow(data: Data, i: nat): Row
    requires i < |data|
  {
    Row(data[i].0, data[i].1.reason, data[i].1.timestamp)
  }

  /** The rows `_save_data` writes: the header, then one row per entry in dict order. */
  function Serialize(data: Data): seq<Row> {
    [HEADER] + seq(|data|, i requires 0 <= i < |data| => EntryRow(data, i))
  }

  lemma {:induction false} CollectLastRecord(records: seq<Row>, i: nat)
    requires i < |records|
    requires forall j :: i < j < |records| ==> records[j].first != records[i].first
    ensures Get(Collect(records), records[i].first) == Some(RowInfo(records[i]))
    decreases |records|
  {
    var init := records[..|records| - 1];
    if i < |records| - 1 {
      assert init[i] == records[i];
      CollectLastRecord(init, i);
    }
  }

  /**
   * When a filename occurs in several rows, loading keeps the reason and
   * timestamp of the last of them.
   */
  lemma LoadKeepsLastRow(rows: seq<Row>, i: nat)
    requires 1 <= i < |rows|
    requires forall j :: i < j < |rows| ==> rows[j].first != rows[i].first
    ensures Get(Parse(rows), rows[i].first) == Some(RowInfo(rows[i]))
  {
    CollectLastRecord(rows[1..], i - 1);
  }

  lemma {:induction false} CollectAbsent(records: seq<Row>, f: string)
    ensures Get(Collect(records), f).None? <==> forall j :: 0 <= j < |records| ==> records[j].first != f
    decreases |records|
  {
    if records != [] {
      var init := records[..|records| - 1];
      CollectAbsent(init, f);
      CollectGetLast(records, init, f);
      FirstsSnoc(records, init, f);
    }
  }

  /** Looking a filename up after one more record. */
  lemma CollectGetLast(records: seq<Row>, init: seq<Row>, f: string)
    requires records != [] && init == records[..|records| - 1]
    ensures var last := records[|records| - 1];
            Get(Collect(records), f) == if last.first == f then Some(RowInfo(last)) else Get(Collect(init), f)
  {
  }

  /** No record names `f` exactly when none of the earlier ones and not the last one does. */
  lemma FirstsSnoc(records: seq<Row>, init: seq<Row>, f: string)
    requires records != [] && init == records[..|records| - 1]
    ensures (forall j :: 0 <= j < |records| ==> records[j].first != f)
            <==> records[|records| - 1].first != f && forall j :: 0 <= j < |init| ==> init[j].first != f
  {
    if records[|records| - 1].first != f && forall j :: 0 <= j < |init| ==> init[j].first != f {
      forall j | 0 <= j < |records| ensures records[j].first != f {
        if j < |init| {
          assert init[j] == records[j];
        }
      }
    }
  }

  /** A filename is in the loaded dict exactly when some data row names it. */
  lemma LoadedKeys(rows: seq<Row>, f: string)
    ensures Get(Parse(rows), f).None? <==> forall j :: 1 <= j < |rows| ==> rows[j].first != f
  {
    if rows != [] {
      CollectAbsent(rows[1..], f);
      assert forall j :: 1 <= j < |rows| ==> rows[1..][j - 1] == rows[j];
    }
  }

  /** Saving a dict and loading the file back gives the same dict, order included. */
  lemma SaveLoadRoundTrip(data: Data)
    requires UniqueKeys(data)
    ensures Parse(Serialize(data)) == data
  {
    var records := Serialize(data)[1..];
    var k := 0;
    while k < |data|
      invariant k <= |data|
      invariant Collect(records[..k]) == data[..k]
    {
      CollectPrefixStep(data, records, k);
      k := k + 1;
    }
    assert records[..|data|] == records;
    assert data[..|data|] == data;
  }

  /** Loading one more saved row appends that entry, as its key is new. */
  lemma CollectPrefixStep(data: Data, records: seq<Row>, k: nat)
    requires UniqueKeys(data) && records == Serialize(data)[1..] && k < |data|
    requires Collect(records[..k]) == data[..k]
    ensures Collect(records[..k + 1]) == data[..k + 1]
  {
    FreshKey(data, k);
    assert records[..k + 1][..k] == records[..k];
    assert records[k] == EntryRow(data, k);
    SetAbsent(data[..k], data[k].0, data[k].1);
    assert data[..k + 1] == data[..k] + [data[k]];
  }

  lemma FreshKey(data: Data, k: nat)
    requires UniqueKeys(data) && k < |data|
    ensures data[k].0 !in Keys(data[..k])
  {
    forall i | 0 <= i < k ensures Keys(data[..k])[i] != data[k].0 {
      assert data[i].0 != data[k].0;
    }
  }

  /** A store that holds only the header holds no entry. */
  lemma HeaderOnlyIsEmpty()
    ensures Parse([HEADER]) == []
  {
    assert [HEADER][1..] == [];
  }

  /** One `list_all` tuple: `(filename, reason, timestamp)`. */
  type Listing = (string, string, string)

  function Triples(data: Data): seq<Listing> {
    seq(|data|, i requires 0 <= i < |data| => (data[i].0, data[i].1.reason, data[i].1.timestamp))
  }

  /** `a` may be listed before `b`: its timestamp string is not smaller. */
  predicate NotOlder(a: Listing, b: Listing) {
    Strings.LessEq(b.2, a.2)
  }

  lemma NotOlderIsTotalPreorder()
    ensures Sorting.TotalPreorder(NotOlder)
  {
    forall a: Listing, b: Listing ensures NotOlder(a, b) || NotOlder(b, a) {
      Strings.LessEqTotal(a.2, b.2);
    }
    forall a: Listing, b: Listing, c: Listing | NotOlder(a, b) && NotOlder(b, c)
      ensures NotOlder(a, c)
    {
      Strings.LessEqTransitive(c.2, b.2, a.2);
    }
  }

  /**
   * `list_all`: every entry exactly once, as a tuple, most recent timestamp
   * (as a string) first.
   */
  function ListAll(data: Data): (items: seq<Listing>)
    ensures multiset(items) == multiset(Triples(data))
    ensures forall i, j :: 0 <= i < j < |items| ==> Strings.LessEq(items[j].2, items[i].2)
  {
    NotOlderIsTotalPreorder();
    Sorting.SortBySorted(Triples(data), NotOlder);
    Sorting.SortBy(Triples(data), NotOlder)
  }

  /**
   * `BlacklistDB`: the store kept in the CSV file `folder / name`. All state
   * is the file; the object only knows where it is.
   */
  /** The dict the file `name` of a folder holds; empty while there is no such file. */
  function StoredAt(entries: map<string, Node>, name: string): Data {
    if name in entries && entries[name].Table? then Parse(entries[name].rows) else []
  }

  /** Saving a table of distinct keys and reading it back gives that table. */
  lemma SavedIsStored(entries: map<string, Node>, name: string, data: Data)
    requires UniqueKeys(data)
    ensures StoredAt(entries[name := Table(Serialize(data))], name) == data
  {
    SaveLoadRoundTrip(data);
  }

  class BlacklistDB {
    const folder: Folder
    const name: string

    ghost predicate Valid()
      reads this, folder
    {
      && folder.Valid()
      && folder.onDisk
      && EntryName(name)
      && (name in folder.entries ==> folder.entries[name].Table?)
    }

    /** The dict the file holds; empty while the file is missing. */
    function Stored(): Data
      reads this, folder
    {
      StoredAt(folder.entries, name)
    }

    /** The folder after `_init_csv` has created the file if it was missing. */
    function WithFile(): map<string, Node>
      reads this, folder
    {
      if name in folder.entries then folder.entries else folder.entries[name := Table([HEADER])]
    }

    /** Creates the folder, and the file with its header unless it exists. */
    constructor (folder: Folder, name: string)
      requires folder.Valid() && EntryName(name)
      requires name in folder.entries ==> folder.entries[name].Table?
      modifies folder
      ensures this.folder == folder && this.name == name && Valid()
      ensures folder.entries == if name in old(folder.entries) then old(folder.entries)
                                else old(folder.entries)[name := Table([HEADER])]
    {
      this.folder := folder;
      this.name := name;
      new;
      folder.Mkdir();
      if name !in folder.entries {
        folder.WriteTable(name, [HEADER]);
      }
    }

    /** `_load_data`: reads the file row by row; a missing file is created empty. */
    method LoadData() returns (data: Data)
      requires Valid()
      modifies folder
      ensures Valid()
      ensures data == old(Stored())
      ensures folder.entries == old(WithFile())
    {
      if name !in folder.entries {
        folder.WriteTable(name, [HEADER]);
        HeaderOnlyIsEmpty();
        return [];
      }
      var rows := folder.entries[name].rows;
      data := [];
      if rows == [] {
        return;
      }
      var i := 1;
      while i < |rows|
        invariant 1 <= i <= |rows|
        invariant data == Collect(rows[1..i])
        invariant folder.entries == old(folder.entries) && folder.onDisk == old(folder.onDisk)
      {
        CollectStep(rows, i);
        data := Set(data, rows[i].first, RowInfo(rows[i]));
        i := i + 1;
      }
      assert rows[1..|rows|] == rows[1..];
    }

    /** `_save_data`: the header, then one row per entry, replacing the file. */
    method SaveData(data: Data)
      requires Valid()
      modifies folder
      ensures Valid()
      ensures folder.entries == old(folder.entries)[name := Table(Serialize(data))]
    {
      var rows := [HEADER];
      for i := 0 to |data|
        invariant rows == [HEADER] + seq(i, k requires 0 <= k < i => EntryRow(data, k))
      {
        rows := rows + [Row(data[i].0, data[i].1.reason, data[i].1.timestamp)];
      }
      folder.WriteTable(name, rows);
    }

    /**
     * `add`: upserts the entry with the reason's text and the time `now`,
     * then rewrites the file. `fails` stands for the file refusing the write
     * (an exception from `open`), which leaves everything as it was.
     */
    method Add(filename: string, reason: ReasonArg, now: string, fails: bool) returns (ok: bool)
      requires Valid()
      modifies folder
      ensures Valid()
      ensures ok == !fails
      ensures ok ==> Stored() == Set(old(Stored()), filename, Info(ReasonText(reason), now))
      ensures folder.entries == if ok then old(folder.entries)[name := Table(Serialize(Stored()))]
                                else old(folder.entries)
    {
      if fails {
        return false;
      }
      var data := LoadData();
      data := Set(data, filename, Info(ReasonText(reason), now));
      ghost var loaded := folder.entries;
      SaveData(data);
      SavedIsStored(loaded, name, data);
      ok := true;
    }

    /** `is_blacklisted` */
    method IsBlacklisted(filename: string) returns (b: bool)
      requires Valid()
      modifies folder
      ensures Valid() && folder.entries == old(WithFile()) && Stored() == old(Stored())
      ensures b <==> filename in Keys(old(Stored()))
    {
      var data := LoadData();
      HeaderOnlyIsEmpty();
      b := filename in Keys(data);
    }

    /** `get_reason`: the stored reason, or `None` for a file not on the list. */
    method GetReason(filename: string) returns (r: Option<string>)
      requires Valid()
      modifies folder
      ensures Valid() && folder.entries == old(WithFile()) && Stored() == old(Stored())
      ensures r.None? <==> filename !in Keys(old(Stored()))
      ensures r.Some? ==> exists t :: (filename, Info(r.value, t)) in old(Stored())
    {
      var data := LoadData();
      HeaderOnlyIsEmpty();
      var found := Get(data, filename);
      if found.Some? {
        r := Some(found.value.reason);
      } else {
        r := None;
      }
    }

    /** `list_all` */
    method ListEntries() returns (items: seq<Listing>)
      requires Valid()
      modifies folder
      ensures Valid() && folder.entries == old(WithFile()) && Stored() == old(Stored())
      ensures items == ListAll(old(Stored()))
    {
      var data := LoadData();
      HeaderOnlyIsEmpty();
      items := ListAll(data);
    }
  }
}
