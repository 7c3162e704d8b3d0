/**
 * The palette fix-up that wraps pywal's `colors.get` (src/yodawg/__init__.py):
 * when the backend returns fewer than 16 `colorN` entries, the missing
 * numbers up to 15 are filled with the highest-numbered colour.
 *
 * The value under `colors["colors"]` is a Python dict, so an ordered
 * association list; the wrapper updates it in place and returns the same
 * object, which is a `Scheme` whose `colors` field the method reassigns.
 */
module Palette {
  import opened Wrappers
  import opened Strings
  import opened OrderedDict
  import Sorting
  import Filtering

  const PALETTE_SIZE: nat := 16
  const BLACK: string := "#000000"
  const COLOR: string := "color"

  /** What `colors["colors"]` holds: a dict from key to colour, or any other value. */
  datatype Colors = NotADict | Palette(entries: Dict<string, string>)

  /** `k.startswith("color")` */
  predicate IsColorKey(k: string) {
    StartsWith(k, COLOR)
  }

  /** `int(k.replace("color", ""))`; `None` where that raises `ValueError`. */
  function KeyNumber(k: string): Option<int> {
    ParseInt(RemoveAll(k, COLOR))
  }

  /** The key of every colour key, evaluated in order; `None` at the first that does not parse. */
  function Numbered(keys: seq<string>): (r: Option<seq<(string, int)>>)
    ensures r.None? <==> exists i :: 0 <= i < |keys| && KeyNumber(keys[i]).None?
    ensures r.Some? ==> |r.value| == |keys|
    ensures r.Some? ==> forall i :: 0 <= i < |keys| ==>
      KeyNumber(keys[i]).Some? && r.value[i] == (keys[i], KeyNumber(keys[i]).value)
    decreases |keys|
  {
    if keys == [] then Some([])
    else
      var n := KeyNumber(keys[0]);
      var rest := Numbered(keys[1..]);
      if n.None? then None
      else if rest.None? then
        assert forall i :: 0 <= i < |keys[1..]| ==> keys[1..][i] == keys[i + 1];
        None
      else
        assert forall i :: 1 <= i < |keys| ==> keys[i] == keys[1..][i - 1];
        Some([(keys[0], n.value)] + rest.value)
  }

  /** Compare two numbered keys by number. */
  predicate ByNumber(a: (string, int), b: (string, int)) {
    a.1 <= b.1
  }

  lemma ByNumberIsTotalPreorder()
    ensures Sorting.TotalPreorder(ByNumber)
  {
  }

  /** `sorted([k for k in keys if k.startswith("color")], key=...)`; `None` where that raises. */
  function SortedColorKeys(d: Dict<string, string>): Option<seq<(string, int)>> {
    var numbered := Numbered(Filtering.Filter(Keys(d), IsColorKey));
    if numbered.None? then None else Some(Sorting.SortBy(numbered.value, ByNumber))
  }

  /** `f"color{i}"` */
  function ColorName(i: nat): string {
    COLOR + NatToString(i)
  }

  /** `f"color{lo}"`, ..., `f"color{hi-1}"` */
  function Names(lo: nat, hi: nat): seq<string>
    decreases hi
  {
    if hi <= lo then [] else Names(lo, hi - 1) + [ColorName(hi - 1)]
  }

  lemma {:induction false} NamesMembers(lo: nat, hi: nat, k: string)
    ensures k in Names(lo, hi) <==> exists i :: lo <= i < hi && k == ColorName(i)
    decreases hi
  {
    if hi > lo {
      NamesMembers(lo, hi - 1, k);
      if k != ColorName(hi - 1) && exists i :: lo <= i < hi && k == ColorName(i) {
        var i :| lo <= i < hi && k == ColorName(i);
        assert i < hi - 1;
      }
    }
  }

  /** `colors[k] = v` for each `k` of `keys` in turn. */
  function SetAll<K(==, !new), V>(d: Dict<K, V>, keys: seq<K>, v: V): Dict<K, V>
    decreases |keys|
  {
    if keys == [] then d else Set(SetAll(d, keys[..|keys| - 1], v), keys[|keys| - 1], v)
  }

  /** `for i in range(lo, hi): colors[f"color{i}"] = v` */
  function SetRange(d: Dict<string, string>, lo: nat, hi: nat, v: string): Dict<string, string> {
    SetAll(d, Names(lo, hi), v)
  }

  /** The colour of the last key in number order, or black when there is none. */
  function LastColor(d: Dict<string, string>, sorted: seq<(string, int)>): string {
    if sorted == [] then BLACK
    else
      var found := Get(d, sorted[|sorted| - 1].0);
      if found.Some? then found.value else BLACK
  }

  /** The palette after the fix-up; `None` where the key sort raises `ValueError`. */
  function Padded(d: Dict<string, string>): Option<Dict<string, string>> {
    match SortedColorKeys(d)
    case None => None
    case Some(sorted) =>
      if |sorted| >= PALETTE_SIZE then Some(d)
      else Some(SetRange(d, |sorted|, PALETTE_SIZE, LastColor(d, sorted)))
  }

  /** Writing the keys of `keys` sets exactly those and leaves every other key alone. */
  lemma {:induction false} SetAllGet<K(!new), V>(d: Dict<K, V>, keys: seq<K>, v: V, k: K)
    ensures Get(SetAll(d, keys, v), k) == if k in keys then Some(v) else Get(d, k)
    decreases |keys|
  {
    if keys != [] {
      var init, last := keys[..|keys| - 1], keys[|keys| - 1];
      SetAllGet(d, init, v, k);
      var before := SetAll(d, init, v);
      assert SetAll(d, keys, v) == Set(before, last, v);
      assert Get(Set(before, last, v), k) == if k == last then Some(v) else Get(before, k);
      InSnoc(keys, k);
    }
  }

  lemma InSnoc<T>(s: seq<T>, x: T)
    requires s != []
    ensures x in s <==> x in s[..|s| - 1] || x == s[|s| - 1]
  {
    assert s == s[..|s| - 1] + [s[|s| - 1]];
  }

  lemma {:induction false} SetAllUnique<K(!new), V>(d: Dict<K, V>, keys: seq<K>, v: V)
    requires UniqueKeys(d)
    ensures UniqueKeys(SetAll(d, keys, v))
    decreases |keys|
  {
    if keys != [] {
      SetAllUnique(d, keys[..|keys| - 1], v);
    }
  }

  /** Writing `color{lo}`..`color{hi-1}` sets exactly those keys and leaves every other key alone. */
  lemma SetRangeGet(d: Dict<string, string>, lo: nat, hi: nat, v: string, k: string)
    ensures Get(SetRange(d, lo, hi, v), k) ==
      if exists i :: lo <= i < hi && k == ColorName(i) then Some(v) else Get(d, k)
  {
    SetAllGet(d, Names(lo, hi), v, k);
    NamesMembers(lo, hi, k);
  }

  /** The key sort raises exactly when some colour key's suffix is not an integer. */
  lemma PaddedFails(d: Dict<string, string>)
    ensures Padded(d).None? <==> exists k :: k in Keys(d) && IsColorKey(k) && KeyNumber(k).None?
  {
    var colorKeys := Filtering.Filter(Keys(d), IsColorKey);
    forall k ensures k in colorKeys <==> k in Keys(d) && IsColorKey(k) {
      Filtering.FilterMembers(Keys(d), IsColorKey, k);
    }
    if Padded(d).None? {
      var i :| 0 <= i < |colorKeys| && KeyNumber(colorKeys[i]).None?;
      assert colorKeys[i] in colorKeys;
    }
  }

  /**
   * The padding colour is the colour of a colour key with the highest
   * number; every colour key's suffix parses.
   */
  lemma PaddingColorIsHighest(d: Dict<string, string>, sorted: seq<(string, int)>)
    requires SortedColorKeys(d) == Some(sorted) && sorted != []
    ensures var top := sorted[|sorted| - 1];
      IsColorKey(top.0) && top.0 in Keys(d) && KeyNumber(top.0) == Some(top.1) &&
      LastColor(d, sorted) == Get(d, top.0).value
    ensures forall k :: k in Keys(d) && IsColorKey(k) ==>
      KeyNumber(k).Some? && KeyNumber(k).value <= sorted[|sorted| - 1].1
  {
    TopIsColorKey(d, sorted);
    forall k | k in Keys(d) && IsColorKey(k)
      ensures KeyNumber(k).Some? && KeyNumber(k).value <= sorted[|sorted| - 1].1
    {
      KeyAtMostTop(d, sorted, k);
    }
  }

  /** The last of the sorted keys is a colour key of `d` with its own number. */
  lemma TopIsColorKey(d: Dict<string, string>, sorted: seq<(string, int)>)
    requires SortedColorKeys(d) == Some(sorted) && sorted != []
    ensures var top := sorted[|sorted| - 1];
      IsColorKey(top.0) && top.0 in Keys(d) && KeyNumber(top.0) == Some(top.1)
  {
    var colorKeys := Filtering.Filter(Keys(d), IsColorKey);
    var numbered := Numbered(colorKeys).value;
    var top := sorted[|sorted| - 1];
    assert top in multiset(numbered);
    var j :| 0 <= j < |numbered| && numbered[j] == top;
    Filtering.FilterMembers(Keys(d), IsColorKey, colorKeys[j]);
  }

  /** A colour key of `d` parses, to a number no greater than the last sorted one. */
  lemma KeyAtMostTop(d: Dict<string, string>, sorted: seq<(string, int)>, k: string)
    requires SortedColorKeys(d) == Some(sorted) && sorted != []
    requires k in Keys(d) && IsColorKey(k)
    ensures KeyNumber(k).Some? && KeyNumber(k).value <= sorted[|sorted| - 1].1
  {
    var numbered := Numbered(Filtering.Filter(Keys(d), IsColorKey)).value;
    NumberedHasKey(d, k);
    var p := (k, KeyNumber(k).value);
    assert p in multiset(numbered);
    assert multiset(sorted) == multiset(numbered);
    assert p in sorted;
    ByNumberIsTotalPreorder();
    Sorting.SortBySorted(numbered, ByNumber);
    AtMostLast(sorted, p);
  }

  /** A colour key of `d` is numbered, and that pair is among the numbered keys. */
  lemma NumberedHasKey(d: Dict<string, string>, k: string)
    requires Numbered(Filtering.Filter(Keys(d), IsColorKey)).Some?
    requires k in Keys(d) && IsColorKey(k)
    ensures KeyNumber(k).Some? && (k, KeyNumber(k).value) in Numbered(Filtering.Filter(Keys(d), IsColorKey)).value
  {
    var colorKeys := Filtering.Filter(Keys(d), IsColorKey);
    Filtering.FilterMembers(Keys(d), IsColorKey, k);
    var i :| 0 <= i < |colorKeys| && colorKeys[i] == k;
    assert Numbered(colorKeys).value[i] == (k, KeyNumber(k).value);
  }

  /** In a list sorted by number, no element has a larger number than the last. */
  lemma AtMostLast(sorted: seq<(string, int)>, p: (string, int))
    requires Sorting.SortedBy(sorted, ByNumber) && p in sorted
    ensures p.1 <= sorted[|sorted| - 1].1
  {
    var m :| 0 <= m < |sorted| && sorted[m] == p;
    if m < |sorted| - 1 {
      assert ByNumber(sorted[m], sorted[|sorted| - 1]);
    }
  }

  /**
   * With fewer than 16 colour keys, `color{n}`..`color15` take the padding
   * colour and every other key keeps its value; with 16 or more nothing
   * changes.  Keys stay unique.
   */
  lemma PaddedEntries(d: Dict<string, string>, sorted: seq<(string, int)>, k: string)
    requires SortedColorKeys(d) == Some(sorted)
    ensures Padded(d).Some?
    ensures |sorted| >= PALETTE_SIZE ==> Padded(d).value == d
    ensures |sorted| < PALETTE_SIZE ==>
      Get(Padded(d).value, k) ==
        if exists i :: |sorted| <= i < PALETTE_SIZE && k == ColorName(i) then Some(LastColor(d, sorted))
        else Get(d, k)
    ensures UniqueKeys(d) ==> UniqueKeys(Padded(d).value)
  {
    assert Padded(d) == if |sorted| >= PALETTE_SIZE then Some(d)
                        else Some(SetRange(d, |sorted|, PALETTE_SIZE, LastColor(d, sorted)));
    if |sorted| < PALETTE_SIZE {
      SetRangeGet(d, |sorted|, PALETTE_SIZE, LastColor(d, sorted), k);
      if UniqueKeys(d) {
        SetAllUnique(d, Names(|sorted|, PALETTE_SIZE), LastColor(d, sorted));
      }
    }
  }

  /** A palette without colour keys becomes sixteen blacks, `color0`..`color15`. */
  lemma NoColorsAllBlack(d: Dict<string, string>, i: nat)
    requires forall k :: k in Keys(d) ==> !IsColorKey(k)
    requires i < PALETTE_SIZE
    ensures Padded(d).Some? && Get(Padded(d).value, ColorName(i)) == Some(BLACK)
  {
    var colorKeys := Filtering.Filter(Keys(d), IsColorKey);
    if colorKeys != [] {
      Filtering.FilterMembers(Keys(d), IsColorKey, colorKeys[0]);
      assert false;
    }
    assert SortedColorKeys(d) == Some([]);
    PaddedEntries(d, [], ColorName(i));
  }

  /**
   * The result of the wrapped `get`, which `patched_get` updates in place
   * and returns.  `colors` is the value under the "colors" key, `None` when
   * that key is absent.
   */
  class Scheme {
    var colors: Option<Colors>

    constructor (colors: Option<Colors>)
      ensures this.colors == colors
    {
      this.colors := colors;
    }

    /**
     * `patched_get` after the wrapped call: pads a palette dict as `Padded`
     * says, leaves anything else alone; `ok` is false where the key sort
     * raises, and then nothing has changed.
     */
    method PatchedGet() returns (ok: bool)
      modifies this
      ensures old(colors).None? || old(colors).value.NotADict? ==> ok && colors == old(colors)
      ensures old(colors).Some? && old(colors).value.Palette? ==>
        var d := old(colors).value.entries;
        ok == Padded(d).Some? &&
        colors == if ok then Some(Palette(Padded(d).value)) else old(colors)
    {
      if colors.None? || colors.value.NotADict? {
        return true;
      }
      var d := colors.value.entries;
      var sorted := SortedColorKeys(d);
      if sorted.None? {
        return false;
      }
      var n := |sorted.value|;
      if n < PALETTE_SIZE {
        var last := LastColor(d, sorted.value);
        var entries := d;
        for i := n to PALETTE_SIZE
          invariant entries == SetAll(d, Names(n, i), last)
          invariant colors == Some(Palette(entries))
        {
          entries := Set(entries, ColorName(i), last);
          colors := Some(Palette(entries));
        }
      }
      return true;
    }
  }

  /**
   * The fix-up as written: from a palette whose only colour key is `color1`
   * it writes `color1`..`color15`, so `color0` is still missing and there
   * are 15 colours, not 16.
   */
  lemma GapLeavesColorZeroMissing(white: string)
    ensures var d := [(ColorName(1), white)];
      Padded(d).Some? && ColorName(0) !in Keys(Padded(d).value)
  {
    var k := ColorName(1);
    var d := [(k, white)];
    NameNumber(1);
    assert IsColorKey(k) by {
      assert k[..|COLOR|] == COLOR;
    }
    SingleColorKey(k, 1, white);
    ZeroNotPadded(d, [(k, 1)]);
    DistinctNames(0, 1);
    assert Keys(d) == [k];
  }

  /** When `color0` is not among the names written, the fix-up leaves it as it was. */
  lemma ZeroNotPadded(d: Dict<string, string>, sorted: seq<(string, int)>)
    requires SortedColorKeys(d) == Some(sorted) && 0 < |sorted| < PALETTE_SIZE
    ensures Padded(d).Some? && Get(Padded(d).value, ColorName(0)) == Get(d, ColorName(0))
  {
    PaddedEntries(d, sorted, ColorName(0));
    forall i | |sorted| <= i < PALETTE_SIZE ensures ColorName(0) != ColorName(i) {
      DistinctNames(0, i);
    }
  }

  lemma DistinctNames(i: nat, j: nat)
    requires i != j
    ensures ColorName(i) != ColorName(j)
  {
    NameNumber(i);
    NameNumber(j);
  }

  /** A palette with one colour key, numbered `n`. */
  lemma SingleColorKey(k: string, n: int, v: string)
    requires IsColorKey(k) && KeyNumber(k) == Some(n)
    ensures SortedColorKeys([(k, v)]) == Some([(k, n)])
  {
    assert Keys([(k, v)]) == [k];
    OneKeyFiltered(k);
    OneKeyNumbered(k, n);
    assert Sorting.SortBy([(k, n)], ByNumber) == Sorting.Insert((k, n), [], ByNumber);
  }

  lemma OneKeyFiltered(k: string)
    requires IsColorKey(k)
    ensures Filtering.Filter([k], IsColorKey) == [k]
  {
    Filtering.FilterSnoc([], k, IsColorKey);
    assert [] + [k] == [k];
  }

  lemma OneKeyNumbered(k: string, n: int)
    requires KeyNumber(k) == Some(n)
    ensures Numbered([k]) == Some([(k, n)])
  {
    assert [k][1..] == [];
    assert Numbered([]) == Some([]);
    assert [(k, n)] + [] == [(k, n)];
  }

  /** The number in a colour name is the one it was built from. */
  lemma NameNumber(i: nat)
    ensures KeyNumber(ColorName(i)) == Some(i)
  {
    ParseNatToString(i);
    RemoveAllLeading(COLOR, NatToString(i));
    RemoveAllAbsent(NatToString(i), COLOR);
  }

  /** `colors.setdefault(k, v)` for each `k` of `keys` in turn. */
  function FillMissing<K(==, !new), V>(d: Dict<K, V>, keys: seq<K>, v: V): Dict<K, V>
    decreases |keys|
  {
    if keys == [] then d
    else
      var e := FillMissing(d, keys[..|keys| - 1], v);
      var k := keys[|keys| - 1];
      if k in Keys(e) then e else Set(e, k, v)
  }

  /** The fix-up as intended: `color0`..`color15` all present afterwards, whatever the gaps. */
  function PaddedComplete(d: Dict<string, string>): Option<Dict<string, string>> {
    match SortedColorKeys(d)
    case None => None
    case Some(sorted) => Some(FillMissing(d, Names(0, PALETTE_SIZE), LastColor(d, sorted)))
  }

  lemma {:induction false} FillMissingGet<K(!new), V>(d: Dict<K, V>, keys: seq<K>, v: V, k: K)
    ensures k in Keys(d) ==> Get(FillMissing(d, keys, v), k) == Get(d, k)
    ensures k !in Keys(d) ==> Get(FillMissing(d, keys, v), k) == if k in keys then Some(v) else None
    decreases |keys|
  {
    if keys != [] {
      var init := keys[..|keys| - 1];
      FillMissingGet(d, init, v, k);
      assert keys == init + [keys[|keys| - 1]];
    }
  }

  /**
   * After the intended fix-up every `color0`..`color15` is present, present
   * keys keep their values, absent colour names take the padding colour,
   * and no other key is added.
   */
  lemma PaddedCompleteEntries(d: Dict<string, string>, k: string)
    requires PaddedComplete(d).Some?
    ensures forall i :: 0 <= i < PALETTE_SIZE ==> ColorName(i) in Keys(PaddedComplete(d).value)
    ensures k in Keys(d) ==> Get(PaddedComplete(d).value, k) == Get(d, k)
    ensures k !in Keys(d) ==>
              Get(PaddedComplete(d).value, k)
                == if k in Names(0, PALETTE_SIZE) then Some(LastColor(d, SortedColorKeys(d).value)) else None
  {
    var sorted := SortedColorKeys(d).value;
    var v := LastColor(d, sorted);
    var names := Names(0, PALETTE_SIZE);
    FillMissingGet(d, names, v, k);
    forall i | 0 <= i < PALETTE_SIZE ensures ColorName(i) in Keys(PaddedComplete(d).value) {
      FillMissingGet(d, names, v, ColorName(i));
      NamesMembers(0, PALETTE_SIZE, ColorName(i));
    }
  }
}
