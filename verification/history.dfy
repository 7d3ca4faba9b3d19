/**
 * The console's bounded command history: a most-recent-first list of past
 * commands together with the navigation cursor moved by the Up and Down keys.
 * The cursor is an index into the list, or -1 for "not navigating".
 */
module History {
  import opened Optional

  /** Capacity of the history (`maxHistoryEntries`). */
  const MaxEntries: nat := 100

  /** The cursor value meaning "not navigating" (`invalidHistoryPos`). */
  const InvalidPos: int := -1

  /**
   * A cursor is never below -1. It may point past the end of the list: the
   * navigation functions re-clamp it before they index.
   */
  type Cursor = i: int | -1 <= i witness -1

  datatype Store = Store(entries: seq<string>, pos: Cursor)

  /** The store the console starts with. */
  function Empty(): (r: Store)
    ensures Valid(r) && |r.entries| == 0 && r.pos == InvalidPos
  {
    Store([], InvalidPos)
  }

  /** What the console keeps true: bounded length, and the cursor is -1 or a valid index. */
  ghost predicate Valid(st: Store) {
    |st.entries| <= MaxEntries && st.pos < |st.entries|
  }

  function Min(a: int, b: int): int {
    if a <= b then a else b
  }

  /** Result of a navigation key: the new store and the text the input line is set to, if any. */
  datatype Nav = Nav(store: Store, shown: Option<string>)

  /** Forgets the navigation position without touching the list. */
  function Invalidate(st: Store): (r: Store)
    ensures r.entries == st.entries
    ensures r.pos == InvalidPos
    ensures Valid(st) ==> Valid(r)
  {
    st.(pos := InvalidPos)
  }

  /**
   * Records a command: it becomes the newest entry, every older entry moves
   * one place towards the end, and the oldest entry falls off only when the
   * list would otherwise exceed its capacity. Navigation is reset.
   */
  function Add(st: Store, command: string): (r: Store)
    ensures r.pos == InvalidPos
    ensures |r.entries| > 0 && r.entries[0] == command
    ensures |r.entries| == if |st.entries| + 1 > MaxEntries then |st.entries| else |st.entries| + 1
    ensures forall i :: 0 <= i < |r.entries| - 1 ==> r.entries[i + 1] == st.entries[i]
    ensures Valid(st) ==> Valid(r)
  {
    var kept := if |st.entries| + 1 > MaxEntries then st.entries[..|st.entries| - 1] else st.entries;
    Store([command] + kept, InvalidPos)
  }

  /**
   * The Up key: moves one entry towards older commands, stopping at the
   * oldest, and shows the entry under the cursor. On an empty history nothing
   * happens.
   */
  function Prev(st: Store): (r: Nav)
    ensures r.store.entries == st.entries
    ensures |st.entries| == 0 ==> r == Nav(st, None)
    ensures |st.entries| > 0 ==>
              && 0 <= r.store.pos < |st.entries|
              && r.shown == Some(st.entries[r.store.pos])
    ensures |st.entries| > 0 && st.pos == InvalidPos ==> r.store.pos == 0
    ensures |st.entries| > 0 && st.pos < |st.entries| - 1 ==> r.store.pos == st.pos + 1
    ensures |st.entries| > 0 && st.pos >= |st.entries| - 1 ==> r.store.pos == |st.entries| - 1
    ensures Valid(st) ==> Valid(r.store)
  {
    if |st.entries| == 0 then Nav(st, None)
    else
      var clamped := if st.pos >= |st.entries| - 1 then |st.entries| - 2 else st.pos;
      var pos := clamped + 1;
      Nav(Store(st.entries, pos), Some(st.entries[pos]))
  }

  /**
   * The Down key: when navigating, first pulls a cursor that lies past the
   * end back to the oldest entry, then moves one entry towards newer
   * commands. Stepping past the newest entry ends navigation and empties the
   * input line. With an empty history, or when not navigating, nothing
   * happens.
   */
  function Next(st: Store): (r: Nav)
    ensures r.store.entries == st.entries
    ensures |st.entries| == 0 || st.pos == InvalidPos ==> r == Nav(st, None)
    ensures |st.entries| > 0 && st.pos != InvalidPos ==>
              && r.store.pos == Min(st.pos, |st.entries| - 1) - 1
              && r.store.pos < |st.entries| - 1
              && r.shown == Some(if r.store.pos >= 0 then st.entries[r.store.pos] else "")
    ensures Valid(st) ==> Valid(r.store)
  {
    if |st.entries| == 0 || st.pos <= InvalidPos then Nav(st, None)
    else
      var clamped := if st.pos >= |st.entries| then |st.entries| - 1 else st.pos;
      var pos := clamped - 1;
      Nav(Store(st.entries, pos), Some(if pos >= 0 then st.entries[pos] else ""))
  }

  /** Up then Down from any entry but the oldest comes back to the same entry and text. */
  lemma PrevThenNext(st: Store)
    requires 0 <= st.pos <= |st.entries| - 2
    ensures Next(Prev(st).store).store == st
    ensures Next(Prev(st).store).shown == Some(st.entries[st.pos])
  {
  }

  /**
   * Down then Up from any entry comes back to the same entry and shows it;
   * from the newest entry the Down step passes through "not navigating".
   */
  lemma NextThenPrev(st: Store)
    requires 0 <= st.pos < |st.entries|
    ensures Next(st).store.pos == st.pos - 1
    ensures Prev(Next(st).store).store == st
    ensures Prev(Next(st).store).shown == Some(st.entries[st.pos])
  {
  }

  /** Pressing Up `n` times. */
  function PrevN(st: Store, n: nat): Store {
    if n == 0 then st else Prev(PrevN(st, n - 1)).store
  }

  /**
   * Starting from "not navigating", `n` presses of Up land on entry n-1,
   * clamped at the oldest entry: older entries are visited in order and the
   * oldest one is never left.
   */
  lemma {:induction false} PrevWalksOlder(st: Store, n: nat)
    requires |st.entries| > 0 && st.pos == InvalidPos && n > 0
    ensures PrevN(st, n).pos == Min(n - 1, |st.entries| - 1)
    ensures PrevN(st, n).entries == st.entries
  {
    if n > 1 {
      PrevWalksOlder(st, n - 1);
    }
  }

  /** Reversal of a sequence. */
  function Reverse<T>(s: seq<T>): (r: seq<T>)
    ensures |r| == |s|
    ensures forall i :: 0 <= i < |s| ==> r[i] == s[|s| - 1 - i]
  {
    if |s| == 0 then [] else [s[|s| - 1]] + Reverse(s[..|s| - 1])
  }

  /** The first `n` elements of `s`, or all of them when there are fewer. */
  function Take<T>(s: seq<T>, n: nat): (r: seq<T>)
    ensures |r| == Min(n, |s|)
    ensures forall i :: 0 <= i < |r| ==> r[i] == s[i]
  {
    s[..Min(n, |s|)]
  }

  /** Adding the commands one after another, in the order they were executed. */
  function AddAll(st: Store, commands: seq<string>): Store
    decreases |commands|
  {
    if |commands| == 0 then st
    else Add(AddAll(st, commands[..|commands| - 1]), commands[|commands| - 1])
  }

  lemma TakeCons<T>(x: T, s: seq<T>, n: nat)
    requires n > 0
    ensures Take([x] + Take(s, n), n) == Take([x] + s, n)
  {
  }

  /**
   * Adding commands keeps exactly the newest `MaxEntries` of everything ever
   * recorded, most recent first: the newest command is at the front and the
   * oldest ones are the ones evicted.
   */
  lemma {:induction false} AddAllKeepsNewest(st: Store, commands: seq<string>)
    requires |st.entries| <= MaxEntries
    ensures AddAll(st, commands).entries == Take(Reverse(commands) + st.entries, MaxEntries)
    ensures AddAll(st, commands).pos == if |commands| == 0 then st.pos else InvalidPos
    decreases |commands|
  {
    if |commands| > 0 {
      var init := commands[..|commands| - 1];
      var c := commands[|commands| - 1];
      AddAllKeepsNewest(st, init);
      var before := AddAll(st, init);
      assert |before.entries| <= MaxEntries;
      var after := Add(before, c);
      assert after.entries == Take([c] + before.entries, MaxEntries);
      TakeCons(c, Reverse(init) + st.entries, MaxEntries);
      assert Reverse(commands) == [c] + Reverse(init);
      assert [c] + (Reverse(init) + st.entries) == Reverse(commands) + st.entries;
    }
  }
}
