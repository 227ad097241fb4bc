/**
 * The novelty store of packages/plugins/emoji/store/emojiCache.ts: a map from
 * emoji to the time it was last returned, loaded lazily from one JSON file
 * into module memory and written back whole on every update.
 */
module EmojiLru {
  import opened Wrappers

  /** The file as `load` finds it. */
  datatype FileState = Missing | Corrupt | Parsed(m: map<string, int>)

  /** What `JSON.parse(readFile(FILE))` yields, a failure being caught as `{}`. */
  function FileMap(f: FileState): map<string, int> {
    if f.Parsed? then f.m else map[]
  }

  /** The map `load` returns: the memory copy once there is one, else the file's content. */
  function Loaded(mem: Option<map<string, int>>, f: FileState): (m: map<string, int>)
    ensures mem.Some? ==> m == mem.value
    ensures mem.None? && !f.Parsed? ==> m == map[]
  {
    if mem.Some? then mem.value else FileMap(f)
  }

  /** `map[emoji] ?? null`. */
  function Lookup(m: map<string, int>, emoji: string): (r: Option<int>)
    ensures r.Some? <==> emoji in m
    ensures r.Some? ==> r.value == m[emoji]
  {
    if emoji in m then Some(m[emoji]) else None
  }

  class Store {
    /** The module variable `mem` (`None` for `null`). */
    var mem: Option<map<string, int>>
    /** The file on disk. */
    var file: FileState
    /** How many times the file has been read and written. */
    var fileReads: nat
    var fileWrites: nat

    constructor (file: FileState)
      ensures mem.None? && this.file == file && fileReads == 0 && fileWrites == 0
    {
      mem := None;
      this.file := file;
      fileReads := 0;
      fileWrites := 0;
    }

    /** `load()`: an empty map in memory is still a map, so once set the file is not read again. */
    method Load() returns (m: map<string, int>)
      modifies this
      ensures m == Loaded(old(mem), old(file)) && mem == Some(m) && file == old(file) && fileWrites == old(fileWrites)
      ensures fileReads == if old(mem).Some? then old(fileReads) else old(fileReads) + 1
    {
      if mem.Some? {
        return mem.value;
      }
      fileReads := fileReads + 1;
      m := FileMap(file);
      mem := Some(m);
    }

    /** `save()`: writes the memory copy, if there is one, as the whole file. */
    method Save()
      modifies this
      ensures mem == old(mem) && fileReads == old(fileReads)
      ensures old(mem).Some? ==> file == Parsed(old(mem).value) && fileWrites == old(fileWrites) + 1
      ensures old(mem).None? ==> file == old(file) && fileWrites == old(fileWrites)
    {
      if mem.Some? {
        file := Parsed(mem.value);
        fileWrites := fileWrites + 1;
      }
    }

    /** `getEmojiLRU(emoji)`. */
    method Get(emoji: string) returns (r: Option<int>)
      modifies this
      ensures r == Lookup(Loaded(old(mem), old(file)), emoji)
      ensures mem == Some(Loaded(old(mem), old(file))) && file == old(file) && fileWrites == old(fileWrites)
    {
      var m := Load();
      r := Lookup(m, emoji);
    }

    /** `setEmojiLRU(emoji, when)`: the update is written through to the file at once. */
    method Set(emoji: string, when: int)
      modifies this
      ensures mem == Some(Loaded(old(mem), old(file))[emoji := when])
      ensures file == Parsed(mem.value) && fileWrites == old(fileWrites) + 1
    {
      var m := Load();
      mem := Some(m[emoji := when]);
      Save();
    }
  }

  /** After `set(e, w)`, `get(e)` returns `w` and every other emoji reads as before. */
  lemma GetAfterSet(mem: Option<map<string, int>>, f: FileState, e: string, w: int, other: string)
    ensures var after := Some(Loaded(mem, f)[e := w]);
      Lookup(Loaded(after, Parsed(after.value)), e) == Some(w)
      && (other != e ==> Lookup(Loaded(after, Parsed(after.value)), other) == Lookup(Loaded(mem, f), other))
  {
  }

  /** Once memory holds a map, what is loaded no longer depends on the file. */
  lemma LoadIgnoresFileOnceInMemory(m: map<string, int>, f1: FileState, f2: FileState)
    ensures Loaded(Some(m), f1) == Loaded(Some(m), f2)
  {
  }

  /** Write-through: after `set`, reloading from the file alone gives the same map as memory. */
  lemma WriteThrough(mem: Option<map<string, int>>, f: FileState, e: string, w: int)
    ensures var after := Loaded(mem, f)[e := w];
      Loaded(None, Parsed(after)) == after
  {
  }
}
