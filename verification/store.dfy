/**
 * `FortuneStorage`: the ordered list of fortunes in memory, mirrored to the
 * browser's storage entry "fortunes" after every change. The entry's JSON
 * text is abstracted to the list it encodes.
 */
module FortuneStore {
  import opened Wrappers
  import opened Fortunes

  /** The storage entry "fortunes": None while nothing has been stored. */
  class PersistedSlot {
    var value: Option<seq<Fortune>>

    constructor (value: Option<seq<Fortune>>)
      ensures this.value == value
    {
      this.value := value;
    }
  }

  /** What `load` reads: the stored list, or the empty list when nothing is stored. */
  function Loaded(value: Option<seq<Fortune>>): seq<Fortune>
  {
    value.GetOr([])
  }

  /**
   * Where `splice(start, 1)` removes (section 22.1.3.25 of ECMAScript 2015):
   * a negative start counts back from the end, clamped to 0; a start past
   * the end is clamped to the length, where nothing is removed.
   */
  function SpliceStart(len: nat, start: int): (k: nat)
    ensures k <= len
    ensures 0 <= start <= len ==> k == start
    ensures start < 0 && 0 <= len + start ==> k == len + start
    ensures len + start < 0 ==> k == 0
    ensures start > len ==> k == len
  {
    if start < 0 then (if len + start < 0 then 0 else len + start)
    else if start < len then start
    else len
  }

  /**
   * The list after `splice(start, 1)`: the element at the splice position
   * is gone and the others keep their order; past the end nothing changes.
   */
  function RemoveAt<T>(s: seq<T>, start: int): (r: seq<T>)
    ensures var k := SpliceStart(|s|, start);
      k < |s| ==>
        && |r| == |s| - 1
        && (forall j :: 0 <= j < k ==> r[j] == s[j])
        && (forall j :: k <= j < |r| ==> r[j] == s[j + 1])
    ensures SpliceStart(|s|, start) == |s| ==> r == s
  {
    var k := SpliceStart(|s|, start);
    if k < |s| then s[..k] + s[k + 1..] else s
  }

  /** Deleting an element that is there makes the list exactly one shorter. */
  lemma RemoveAtDropsOne<T>(s: seq<T>, i: int)
    requires 0 <= i < |s|
    ensures multiset(RemoveAt(s, i)) + multiset{s[i]} == multiset(s)
  {
    var r := RemoveAt(s, i);
    assert r == s[..i] + s[i + 1..];
    calc {
      multiset(s);
      { assert s == s[..i] + [s[i]] + s[i + 1..]; }
      multiset(s[..i]) + multiset{s[i]} + multiset(s[i + 1..]);
      multiset(r) + multiset{s[i]};
    }
  }

  class FortuneStorage {
    var fortunes: seq<Fortune>
    const slot: PersistedSlot

    /** The stored entry holds exactly the in-memory list. */
    ghost predicate Synced()
      reads this, slot
    {
      slot.value == Some(fortunes)
    }

    /** `new FortuneStorage()`: starts empty, then loads what is stored. */
    constructor (slot: PersistedSlot)
      ensures this.slot == slot
      ensures fortunes == Loaded(slot.value)
      ensures slot.value == Some(fortunes) || (slot.value == None && fortunes == [])
    {
      this.slot := slot;
      fortunes := [];
      new;
      Load();
    }

    /** Replaces the list with the stored one, or with [] when nothing is stored. */
    method Load()
      modifies this`fortunes
      ensures slot.value.Some? ==> fortunes == slot.value.value
      ensures slot.value.None? ==> fortunes == []
      ensures Synced() <==> slot.value.Some?
    {
      fortunes := Loaded(slot.value);
    }

    /** Writes the whole list to the stored entry. */
    method Save()
      modifies slot
      ensures Synced()
    {
      slot.value := Some(fortunes);
    }

    /** Appends `fortune`, then saves. */
    method Add(fortune: Fortune)
      modifies this`fortunes, slot
      ensures fortunes == old(fortunes) + [fortune]
      ensures |fortunes| == |old(fortunes)| + 1 && fortunes[|fortunes| - 1] == fortune
      ensures fortunes[..|old(fortunes)|] == old(fortunes)
      ensures Synced()
    {
      fortunes := fortunes + [fortune];
      Save();
    }

    /** `fortunes.splice(index, 1)`, then saves. */
    method DeleteAtIndex(index: int)
      modifies this`fortunes, slot
      ensures fortunes == RemoveAt(old(fortunes), index)
      ensures 0 <= index < |old(fortunes)| ==>
        fortunes == old(fortunes)[..index] + old(fortunes)[index + 1..]
      ensures index >= |old(fortunes)| ==> fortunes == old(fortunes)
      ensures Synced()
    {
      fortunes := RemoveAt(fortunes, index);
      Save();
    }
  }

  /**
   * Reloading the page after a change: a new store on the same entry starts
   * with exactly the list the old store held, and loading again changes nothing.
   */
  method ReloadAfterChange(slot: PersistedSlot, fortune: Fortune, index: int)
    returns (kept: seq<Fortune>, reloaded: seq<Fortune>, loadedTwice: seq<Fortune>)
    modifies slot
    ensures reloaded == kept && loadedTwice == kept
    ensures kept == RemoveAt(Loaded(old(slot.value)) + [fortune], index)
  {
    var store := new FortuneStorage(slot);
    store.Add(fortune);
    store.DeleteAtIndex(index);
    kept := store.fortunes;
    var again := new FortuneStorage(slot);
    reloaded := again.fortunes;
    again.Load();
    again.Load();
    loadedTwice := again.fortunes;
  }

  /** An empty entry loads as an empty list; after one add, a reload shows just that fortune. */
  method FirstVisit(fortune: Fortune) returns (initial: seq<Fortune>, reloaded: seq<Fortune>)
    ensures initial == []
    ensures reloaded == [fortune]
  {
    var slot := new PersistedSlot(None);
    var store := new FortuneStorage(slot);
    initial := store.fortunes;
    store.Add(fortune);
    var again := new FortuneStorage(slot);
    reloaded := again.fortunes;
  }
}
