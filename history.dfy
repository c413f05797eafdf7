/**
 * Most-recently-used history lists: the shell-command history and the app
 * history. Both keep a list of strings, newest first; adding an entry moves it
 * to the front (removing its earlier occurrence) and trims the list to its
 * capacity.
 */
module History {
  import opened Text

  /** What reading the history file yields. */
  datatype Stored =
    | Absent                        // the file does not exist
    | Malformed                     // reading or decoding raised
    | Parsed(entries: seq<string>)  // the list under the JSON key (`[]` when the key is missing)

  /** No entry occurs twice. */
  predicate NoDup(s: seq<string>) {
    forall i, j :: 0 <= i < j < |s| ==> s[i] != s[j]
  }

  /** Python's `list.index(x)`: the position of the first occurrence. */
  function IndexOf(s: seq<string>, x: string): (i: nat)
    requires x in s
    ensures i < |s| && s[i] == x && x !in s[..i]
    decreases |s|
  {
    if s[0] == x then 0
    else
      var k := IndexOf(s[1..], x);
      assert s[..k + 1] == [s[0]] + s[1..][..k];
      1 + k
  }

  /** Python's `list.remove(x)` when `x` is present: the entry at `index(x)` goes, the others keep their order. */
  function RemoveFirst(s: seq<string>, x: string): (r: seq<string>)
    ensures x !in s ==> r == s
    ensures x in s ==> |r| == |s| - 1 && r == s[..IndexOf(s, x)] + s[IndexOf(s, x) + 1..]
  {
    if x in s then s[..IndexOf(s, x)] + s[IndexOf(s, x) + 1..] else s
  }

  /** `remove` takes away one occurrence of `x` and nothing else. */
  lemma RemoveFirstMultiset(s: seq<string>, x: string)
    ensures multiset(RemoveFirst(s, x)) == multiset(s) - multiset{x}
  {
    if x in s {
      var i := IndexOf(s, x);
      assert s == s[..i] + [x] + s[i + 1..];
    } else {
      assert multiset(s)[x] == 0;
    }
  }

  /** The list after `add(x)` of a valid entry: remove, insert at the front, trim. */
  function MoveToFront(items: seq<string>, x: string, maxItems: int): (r: seq<string>)
    ensures 0 <= maxItems ==> |r| <= maxItems
    ensures 0 < maxItems ==> |r| == Min(maxItems, |RemoveFirst(items, x)| + 1)
    ensures 0 < maxItems ==> r[0] == x && r[1..] == RemoveFirst(items, x)[..|r| - 1]
  {
    var full := [x] + RemoveFirst(items, x);
    var r := Take(full, maxItems);
    assert 0 < maxItems ==> r[1..] == full[1..][..|r| - 1];
    r
  }

  function Min(a: int, b: int): int {
    if a <= b then a else b
  }

  /** `get_recency`: the position of `id`, or the sentinel 999 when empty or absent. */
  function Recency(items: seq<string>, id: string): (r: nat)
    ensures (id == "" || id !in items) ==> r == 999
    ensures id != "" && id in items ==> r < |items| && items[r] == id && id !in items[..r]
  {
    if id == "" || id !in items then 999 else IndexOf(items, id)
  }

  /** The list `_load` leaves behind, starting from `current`. */
  function Loaded(current: seq<string>, stored: Stored, maxItems: int): (r: seq<string>)
    ensures stored.Absent? ==> r == current
    ensures stored.Malformed? ==> r == []
    ensures stored.Parsed? ==> r == Take(stored.entries, maxItems)
  {
    match stored
    case Absent => current
    case Malformed => []
    case Parsed(entries) => Take(entries, maxItems)
  }

  /** Deleting one position of a duplicate-free list leaves it duplicate-free and without that entry. */
  lemma DeleteAtNoDup(s: seq<string>, i: nat)
    requires NoDup(s) && i < |s|
    ensures NoDup(s[..i] + s[i + 1..])
    ensures s[i] !in s[..i] + s[i + 1..]
  {
    var r := s[..i] + s[i + 1..];
    assert forall p :: 0 <= p < i ==> r[p] == s[p];
    assert forall p :: i <= p < |r| ==> r[p] == s[p + 1];
  }

  /** Removing an entry from a duplicate-free list leaves it duplicate-free and without the entry. */
  lemma RemoveFirstNoDup(s: seq<string>, x: string)
    requires NoDup(s)
    ensures NoDup(RemoveFirst(s, x))
    ensures x !in RemoveFirst(s, x)
  {
    if x in s {
      DeleteAtNoDup(s, IndexOf(s, x));
    }
  }

  /** Putting a new entry in front of a duplicate-free list keeps it duplicate-free. */
  lemma NoDupCons(x: string, rest: seq<string>)
    requires NoDup(rest) && x !in rest
    ensures NoDup([x] + rest)
  {
    var full := [x] + rest;
    forall p, q | 0 <= p < q < |full| ensures full[p] != full[q] {
      assert full[q] == rest[q - 1];
      if p > 0 {
        assert full[p] == rest[p - 1];
      }
    }
  }

  /** A prefix of a duplicate-free list is duplicate-free. */
  lemma NoDupPrefix(s: seq<string>, n: nat)
    requires NoDup(s) && n <= |s|
    ensures NoDup(s[..n])
  {
  }

  /** Moving to the front keeps a duplicate-free list duplicate-free. */
  lemma MoveToFrontNoDup(items: seq<string>, x: string, maxItems: int)
    requires NoDup(items)
    ensures NoDup(MoveToFront(items, x, maxItems))
  {
    RemoveFirstNoDup(items, x);
    var full := [x] + RemoveFirst(items, x);
    NoDupCons(x, RemoveFirst(items, x));
    NoDupPrefix(full, PrefixEnd(|full|, maxItems));
  }

  /** After moving `x` to the front it occurs exactly once, when it occurred at most once before. */
  lemma MoveToFrontOnce(items: seq<string>, x: string, maxItems: int)
    requires 0 < maxItems
    requires multiset(items)[x] <= 1
    ensures multiset(MoveToFront(items, x, maxItems))[x] == 1
  {
    var rest := RemoveFirst(items, x);
    var r := MoveToFront(items, x, maxItems);
    RemoveFirstMultiset(items, x);
    assert multiset(rest)[x] == 0;
    assert x !in rest;
    assert r == [x] + r[1..];
    assert r[1..] == rest[..|r| - 1];
    assert x !in r[1..];
    assert multiset(r) == multiset{x} + multiset(r[1..]);
  }

  /**
   * Adding the same entry twice in a row is the same as adding it once (for a
   * non-negative capacity; a negative one trims from the end on every call).
   */
  lemma MoveToFrontIdempotent(items: seq<string>, x: string, maxItems: int)
    requires 0 <= maxItems
    ensures MoveToFront(MoveToFront(items, x, maxItems), x, maxItems) == MoveToFront(items, x, maxItems)
  {
    var once := MoveToFront(items, x, maxItems);
    if 0 < maxItems {
      assert RemoveFirst(once, x) == once[1..];
      assert [x] + once[1..] == once;
    }
  }

  /** After `add(x)` the recency of `x` is 0. */
  lemma RecencyAfterMove(items: seq<string>, x: string, maxItems: int)
    requires x != "" && 0 < maxItems
    ensures Recency(MoveToFront(items, x, maxItems), x) == 0
  {
    var r := MoveToFront(items, x, maxItems);
    assert r[0] == x;
    assert x !in r[..0];
  }

  /** `mycli/history.py`'s `CommandHistory`: a bounded list of shell commands, newest first. */
  class CommandHistory {
    var items: seq<string>
    const maxItems: int

    /** The capacity invariant. */
    ghost predicate Valid()
      reads this
    {
      0 <= maxItems ==> |items| <= maxItems
    }

    constructor (maxItems: int, stored: Stored)
      ensures Valid() && this.maxItems == maxItems
      ensures items == Loaded([], stored, maxItems)
    {
      this.maxItems := maxItems;
      items := [];
      new;
      Load(stored);
    }

    /** `_load`: a missing file changes nothing, an unreadable one empties the list. */
    method Load(stored: Stored)
      modifies this`items
      ensures Valid()
      ensures items == Loaded(old(items), stored, maxItems)
      requires Valid()
    {
      match stored {
        case Absent =>
        case Malformed =>
          items := [];
        case Parsed(entries) =>
          items := Take(entries, maxItems);
      }
    }

    /** `add`: a blank command is ignored; otherwise it moves to the front and the list is trimmed. */
    method Add(command: string)
      requires Valid()
      modifies this`items
      ensures Valid()
      ensures IsBlank(command) ==> items == old(items)
      ensures !IsBlank(command) ==> items == MoveToFront(old(items), command, maxItems)
    {
      if command == "" || Strip(command) == "" {
        return;
      }
      if command in items {
        items := RemoveFirst(items, command);
      }
      items := [command] + items;
      items := Take(items, maxItems);
    }

    /** `get_recent(limit)`: the newest `limit` commands. */
    method GetRecent(limit: int) returns (r: seq<string>)
      ensures r == Take(items, limit)
      ensures 0 <= limit ==> r == items[..Min(limit, |items|)]
    {
      r := items[..PrefixEnd(|items|, limit)];
    }

    /** `get_all`: a copy of the whole list. */
    method GetAll() returns (r: seq<string>)
      ensures r == items
    {
      r := items;
    }
  }

  /**
   * `AppHistory` (identical in `mylauncher/apps.py` and `mycli/apps.py`): a bounded
   * list of bundle identifiers, newest first.
   */
  class AppHistory {
    var items: seq<string>
    const maxItems: int

    /** The capacity invariant. */
    ghost predicate Valid()
      reads this
    {
      0 <= maxItems ==> |items| <= maxItems
    }

    constructor (maxItems: int, stored: Stored)
      ensures Valid() && this.maxItems == maxItems
      ensures items == Loaded([], stored, maxItems)
    {
      this.maxItems := maxItems;
      items := [];
      new;
      Load(stored);
    }

    /** `_load`. */
    method Load(stored: Stored)
      requires Valid()
      modifies this`items
      ensures Valid()
      ensures items == Loaded(old(items), stored, maxItems)
    {
      match stored {
        case Absent =>
        case Malformed =>
          items := [];
        case Parsed(entries) =>
          items := Take(entries, maxItems);
      }
    }

    /** `add`: only the empty identifier is ignored (whitespace is kept, unlike commands). */
    method Add(bundleId: string)
      requires Valid()
      modifies this`items
      ensures Valid()
      ensures bundleId == "" ==> items == old(items)
      ensures bundleId != "" ==> items == MoveToFront(old(items), bundleId, maxItems)
    {
      if bundleId == "" {
        return;
      }
      if bundleId in items {
        items := RemoveFirst(items, bundleId);
      }
      items := [bundleId] + items;
      items := Take(items, maxItems);
    }

    /** `get_recency`: the first position of the identifier, or 999. */
    method GetRecency(bundleId: string) returns (r: int)
      ensures r == Recency(items, bundleId)
    {
      if bundleId == "" {
        return 999;
      }
      if bundleId in items {
        r := IndexOf(items, bundleId);
      } else {
        r := 999;
      }
    }

    /** `get_all`. */
    method GetAll() returns (r: seq<string>)
      ensures r == items
    {
      r := items;
    }
  }
}
