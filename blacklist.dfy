/**
 * blacklist.py: the blacklisted discord server ids, one per line of the blacklist file, held
 * in module globals and reloaded when the file's modification time changes.  The module's two
 * globals are the fields of the one `Blacklist` object.
 */
module Blacklist {
  import opened Common
  import opened StringLists

  class Blacklist {
    var cachedBlacklist: Option<seq<string>>
    var cachedStamp: Option<int>

    ghost predicate Valid()
      reads this
    {
      cachedBlacklist.Some? <==> cachedStamp.Some?
    }

    /** The state at import: nothing loaded. */
    constructor ()
      ensures Valid() && cachedBlacklist == None && cachedStamp == None
    {
      cachedBlacklist, cachedStamp := None, None;
    }

    /** `is_stale()` with the file's current modification time. */
    predicate IsStale(mtime: int)
      reads this
    {
      cachedBlacklist.None? || cachedStamp != Some(mtime)
    }

    /** `fetch()`: reload from the lines of the file when stale, then hand out the copy. */
    method Fetch(mtime: int, lines: seq<string>) returns (ids: seq<string>)
      requires Valid()
      modifies this
      ensures Valid()
      ensures ids == if old(IsStale(mtime)) then Items(lines) else old(cachedBlacklist.value)
      ensures cachedBlacklist == Some(ids) && cachedStamp == Some(mtime)
      ensures !IsStale(mtime)
    {
      if IsStale(mtime) {
        cachedStamp := Some(mtime);
        var loaded := ReadItems(lines);
        cachedBlacklist := Some(loaded);
      }
      ids := cachedBlacklist.value;
    }
  }
}
