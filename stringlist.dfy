/**
 * The line-list files of stringlist.py (and of blacklist.py, which repeats the same code):
 * one item per line, `,` starting a comment, blank items dropped, and a copy kept in memory
 * that is reloaded when the file's modification time changes.
 *
 * The file is the sequence of its lines as Python's line iteration yields them (each with its
 * `\n`, the last one possibly without), and the modification time is a parameter.
 */
module StringLists {
  import opened Common
  import opened Strings

  /** `line.split(',')[0].rstrip('\n').rstrip('\r')` */
  function Item(line: string): string {
    RStrip(RStrip(BeforeFirst(line, ','), '\n'), '\r')
  }

  /** The non-empty items of the lines, in file order. */
  function Items(lines: seq<string>): seq<string> {
    if lines == [] then []
    else
      var last := Item(lines[|lines| - 1]);
      Items(lines[..|lines| - 1]) + (if last != "" then [last] else [])
  }

  /** The text before the first comma, a prefix of the line, with no `\r` left at its end and
    * nothing but `\n` and `\r` dropped from it: spaces are kept. */
  lemma ItemOfLine(line: string)
    ensures var x := Item(line);
      && ',' !in x && !EndsWith(x, '\r')
      && |x| <= |line| && x == line[..|x|]
      && |x| <= |BeforeFirst(line, ',')|
      && forall k :: |x| <= k < |BeforeFirst(line, ',')| ==> BeforeFirst(line, ',')[k] == '\n' || BeforeFirst(line, ',')[k] == '\r'
  {
  }

  /** Loading the concatenation of two files is loading each in turn. */
  lemma {:induction false} ItemsAppend(a: seq<string>, b: seq<string>)
    ensures Items(a + b) == Items(a) + Items(b)
    decreases |b|
  {
    if b == [] {
      assert a + b == a;
    } else {
      var b' := b[..|b| - 1];
      assert (a + b)[..|a + b| - 1] == a + b';
      assert (a + b)[|a + b| - 1] == b[|b| - 1];
      ItemsAppend(a, b');
    }
  }

  /** An item is on the list exactly when some line yields it, and the list is no longer than
    * the file. */
  lemma {:induction false} ItemsMembers(lines: seq<string>)
    ensures forall x :: x in Items(lines) <==> x != "" && exists i :: 0 <= i < |lines| && Item(lines[i]) == x
    ensures |Items(lines)| <= |lines|
    decreases |lines|
  {
    if lines != [] {
      var init := lines[..|lines| - 1];
      ItemsMembers(init);
      assert forall i :: 0 <= i < |init| ==> init[i] == lines[i];
    }
  }

  /** No item is empty, holds a comma or ends in a carriage return. */
  lemma ItemsClean(lines: seq<string>)
    ensures forall x :: x in Items(lines) ==> x != "" && ',' !in x && !EndsWith(x, '\r')
  {
    ItemsMembers(lines);
    forall x | x in Items(lines) ensures x != "" && ',' !in x && !EndsWith(x, '\r') {
      var i :| 0 <= i < |lines| && Item(lines[i]) == x;
      ItemOfLine(lines[i]);
    }
  }

  /** A line holding just an item and a comment, with its newline, yields the item. */
  lemma CommentedLine(item: string, comment: string)
    requires item != "" && ',' !in item
    requires !EndsWith(item, '\n') && !EndsWith(item, '\r')
    ensures Items([item + "," + comment + "\n"]) == [item]
  {
    var line := item + "," + comment + "\n";
    assert line[|item|] == ',';
    assert line[..|item|] == item;
    assert ',' !in line[..|item|];
    var file: seq<string> := [line];
    assert file[..0] == [];
  }

  /**
   * The loop of `load`: the lines of the file, item by item.
   */
  method ReadItems(lines: seq<string>) returns (result: seq<string>)
    ensures result == Items(lines)
  {
    result := [];
    for i := 0 to |lines|
      invariant result == Items(lines[..i])
    {
      var listItem := Item(lines[i]);
      if listItem != "" {
        result := result + [listItem];
      }
      assert lines[..i + 1][..i] == lines[..i];
    }
    assert lines[..|lines|] == lines;
  }

  /** The in-memory copy of one list file. */
  class StringList {
    var cachedList: Option<seq<string>>
    var cachedStamp: Option<int>

    /** A list is cached exactly when its stamp is recorded. */
    ghost predicate Valid()
      reads this
    {
      cachedList.Some? <==> cachedStamp.Some?
    }

    constructor ()
      ensures Valid() && cachedList == None && cachedStamp == None
    {
      cachedList, cachedStamp := None, None;
    }

    /** `is_stale()` with the file's current modification time. */
    predicate IsStale(mtime: int)
      reads this
    {
      cachedList.None? || cachedStamp != Some(mtime)
    }

    /** `fetch()`: the file's current items when the copy is stale, the copy otherwise. */
    method Fetch(mtime: int, lines: seq<string>) returns (list: seq<string>)
      requires Valid()
      modifies this
      ensures Valid()
      ensures list == if old(IsStale(mtime)) then Items(lines) else old(cachedList.value)
      ensures cachedList == Some(list) && cachedStamp == Some(mtime)
      ensures !IsStale(mtime)
    {
      if IsStale(mtime) {
        cachedStamp := Some(mtime);
        var loaded := ReadItems(lines);
        cachedList := Some(loaded);
      }
      list := cachedList.value;
    }
  }
}
