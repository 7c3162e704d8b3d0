/**
 * The per-URL download tasks, run one after another: each URL's body, when
 * there is one, is written to the folder under the name derived from the
 * URL.
 */
module Writes {
  import opened Wrappers
  import opened FileSystem

  /**
   * Whether a per-URL download writes: it has a body, the cache check (when the
   * variant has one) finds no file, and `open` can create the file.
   */
  predicate TaskWrites(data: Option<Bytes>, cacheCheck: bool, onDisk: bool, entries: map<string, Node>, name: string) {
    data.Some? && !(cacheCheck && PathExists(onDisk, entries, name)) && Writable(onDisk, entries, name)
  }

  /** The folder after the per-URL downloads of `urls`, in list order. */
  function WriteAll(urls: seq<string>, target: string -> string, body: string -> Option<Bytes>, cacheCheck: bool,
                    onDisk: bool, entries: map<string, Node>): map<string, Node>
    decreases |urls|
  {
    if urls == [] then entries
    else
      var before := WriteAll(urls[..|urls| - 1], target, body, cacheCheck, onDisk, entries);
      var url := urls[|urls| - 1];
      if TaskWrites(body(url), cacheCheck, onDisk, before, target(url)) then before[target(url) := File(body(url).value)]
      else before
  }

  lemma WriteAllSnoc(urls: seq<string>, url: string, target: string -> string, body: string -> Option<Bytes>,
                     cacheCheck: bool, onDisk: bool, entries: map<string, Node>)
    ensures var before := WriteAll(urls, target, body, cacheCheck, onDisk, entries);
            WriteAll(urls + [url], target, body, cacheCheck, onDisk, entries)
              == if TaskWrites(body(url), cacheCheck, onDisk, before, target(url))
                 then before[target(url) := File(body(url).value)] else before
  {
    assert (urls + [url])[..|urls|] == urls;
  }

  /** Some URL of `urls` with a body is saved under `name`. */
  predicate WrittenBy(urls: seq<string>, target: string -> string, body: string -> Option<Bytes>, name: string) {
    exists u :: u in urls && target(u) == name && body(u).Some?
  }

  /**
   * The downloads touch only the names of URLs that have a body, create only
   * regular files, and remove nothing.
   */
  lemma {:induction false} WriteAllFrame(urls: seq<string>, target: string -> string, body: string -> Option<Bytes>,
                                         cacheCheck: bool, onDisk: bool, entries: map<string, Node>, name: string)
    ensures var after := WriteAll(urls, target, body, cacheCheck, onDisk, entries);
      && (!WrittenBy(urls, target, body, name) ==>
            (name in after <==> name in entries) && (name in entries ==> after[name] == entries[name]))
      && (name in after && after[name].Directory? <==> name in entries && entries[name].Directory?)
      && (name in entries ==> name in after)
    decreases |urls|
  {
    if urls != [] {
      var init := urls[..|urls| - 1];
      WriteAllFrame(init, target, body, cacheCheck, onDisk, entries, name);
      assert forall u :: u in init ==> u in urls;
    }
  }

  /**
   * Without a cache check, the file of a URL with a body holds that body
   * unless a later URL with a body has the same name: the last write wins.
   */
  lemma {:induction false} LastWriteWins(urls: seq<string>, target: string -> string, body: string -> Option<Bytes>,
                                         onDisk: bool, entries: map<string, Node>, i: nat)
    requires i < |urls| && body(urls[i]).Some? && Writable(onDisk, entries, target(urls[i]))
    requires forall j :: i < j < |urls| && body(urls[j]).Some? ==> target(urls[j]) != target(urls[i])
    ensures var after := WriteAll(urls, target, body, false, onDisk, entries);
            target(urls[i]) in after && after[target(urls[i])] == File(body(urls[i]).value)
    decreases |urls|
  {
    var n := |urls| - 1;
    var init := urls[..n];
    if i < n {
      assert init[i] == urls[i];
      LastWriteWins(init, target, body, onDisk, entries, i);
    } else {
      WriteAllFrame(init, target, body, false, onDisk, entries, target(urls[i]));
    }
  }

  /**
   * With the cache check, a file that existed before the downloads is never
   * overwritten.
   */
  lemma {:induction false} CachedNeverOverwritten(urls: seq<string>, target: string -> string, body: string -> Option<Bytes>,
                                                  onDisk: bool, entries: map<string, Node>, name: string)
    requires onDisk && name in entries
    ensures var after := WriteAll(urls, target, body, true, onDisk, entries);
            name in after && after[name] == entries[name]
    decreases |urls|
  {
    if urls != [] {
      CachedNeverOverwritten(urls[..|urls| - 1], target, body, onDisk, entries, name);
    }
  }

  /**
   * With the cache check, a new file holds the body of the first URL with a
   * body that is saved under its name: the first write wins.
   */
  lemma {:induction false} FirstWriteWins(urls: seq<string>, target: string -> string, body: string -> Option<Bytes>,
                                          onDisk: bool, entries: map<string, Node>, i: nat)
    requires i < |urls| && body(urls[i]).Some? && Writable(onDisk, entries, target(urls[i]))
    requires target(urls[i]) !in entries
    requires forall j :: 0 <= j < i && body(urls[j]).Some? ==> target(urls[j]) != target(urls[i])
    ensures var after := WriteAll(urls, target, body, true, onDisk, entries);
            target(urls[i]) in after && after[target(urls[i])] == File(body(urls[i]).value)
    decreases |urls|
  {
    var n := |urls| - 1;
    var init := urls[..n];
    var name := target(urls[i]);
    if i < n {
      assert init[i] == urls[i];
      FirstWriteWins(init, target, body, onDisk, entries, i);
    } else {
      WriteAllFrame(init, target, body, true, onDisk, entries, name);
    }
    if i < n {
      var before := WriteAll(init, target, body, true, onDisk, entries);
      assert name in before;
    }
  }
}
