/** The query console's history of executed SQL statements: most recent
    first, at most `Capacity` entries after a push, no de-duplication. */
module History {

  const Capacity: nat := 10

  function Min(a: int, b: int): int { if a <= b then a else b }

  /** `[sql, ...prev.slice(0, 9)]`: the statement of a successful query in
      front of the newest nine old entries. */
  function Push(history: seq<string>, sql: string): seq<string> {
    [sql] + history[..Min(Capacity - 1, |history|)]
  }

  /** `prev.filter((_, index) => index !== indexToRemove)`: keeps every entry
      whose position differs from `index`. The recursion walks the list and
      shifts the index it compares against by one per step. */
  function RemoveAt(history: seq<string>, index: int): seq<string>
    decreases |history|
  {
    if history == [] then []
    else (if index == 0 then [] else [history[0]]) + RemoveAt(history[1..], index - 1)
  }

  /** A push puts the statement first, keeps the newest old entries in order
      behind it, and never yields more than `Capacity` entries. */
  lemma PushShape(history: seq<string>, sql: string)
    ensures var r := Push(history, sql);
      && |r| == Min(|history| + 1, Capacity)
      && r[0] == sql
      && forall i :: 1 <= i < |r| ==> r[i] == history[i - 1]
  {
  }

  /** Pushing onto a full history evicts exactly the oldest entry. */
  lemma PushEvictsOldest(history: seq<string>, sql: string)
    requires |history| == Capacity
    ensures Push(history, sql)[1..] + [history[Capacity - 1]] == history
  {
    assert Push(history, sql)[1..] == history[..Capacity - 1];
  }

  /** No de-duplication: a push adds exactly one occurrence of the statement
      to what survives of the old list. */
  lemma PushKeepsDuplicates(history: seq<string>, sql: string)
    ensures multiset(Push(history, sql)) == multiset(history[..Min(Capacity - 1, |history|)]) + multiset{sql}
    ensures sql in history[..Min(Capacity - 1, |history|)] ==> multiset(Push(history, sql))[sql] >= 2
  {
  }

  /** However many statements are pushed, the history ends at most
      `Capacity` long (a stored list longer than that is cut on the first
      push). */
  lemma {:induction false} PushAllBounded(history: seq<string>, sqls: seq<string>)
    requires |sqls| > 0
    ensures |PushAll(history, sqls)| <= Capacity
    decreases |sqls|
  {
    if |sqls| > 1 { PushAllBounded(Push(history, sqls[0]), sqls[1..]); }
  }

  /** Successive pushes, oldest statement first. */
  function PushAll(history: seq<string>, sqls: seq<string>): seq<string>
    decreases |sqls|
  {
    if sqls == [] then history else PushAll(Push(history, sqls[0]), sqls[1..])
  }

  /** Removing a position outside `[0, |history|)` changes nothing. */
  lemma {:induction false} RemoveAtOutOfRange(history: seq<string>, index: int)
    requires index < 0 || index >= |history|
    ensures RemoveAt(history, index) == history
    decreases |history|
  {
    if history != [] {
      RemoveAtOutOfRange(history[1..], index - 1);
      assert [history[0]] + history[1..] == history;
    }
  }

  /** Removing a position inside the list drops exactly that entry and keeps
      the others in order. */
  lemma {:induction false} RemoveAtInRange(history: seq<string>, index: int)
    requires 0 <= index < |history|
    ensures RemoveAt(history, index) == history[..index] + history[index + 1..]
    decreases |history|
  {
    if index == 0 {
      RemoveAtOutOfRange(history[1..], -1);
    } else {
      RemoveAtInRange(history[1..], index - 1);
      assert history[1..][..index - 1] == history[1..index];
      assert history[1..][index..] == history[index + 1..];
      assert [history[0]] + history[1..index] == history[..index];
    }
  }

  /** Removing the entry just pushed gives back the old history, up to the
      entry the push evicted. */
  lemma PushThenRemoveFirst(history: seq<string>, sql: string)
    ensures RemoveAt(Push(history, sql), 0) == history[..Min(Capacity - 1, |history|)]
    ensures |history| < Capacity ==> RemoveAt(Push(history, sql), 0) == history
  {
    RemoveAtInRange(Push(history, sql), 0);
  }

  /** A removal shortens the history by one exactly when the index is in
      range. */
  lemma RemoveAtLength(history: seq<string>, index: int)
    ensures |RemoveAt(history, index)| == if 0 <= index < |history| then |history| - 1 else |history|
  {
    if 0 <= index < |history| { RemoveAtInRange(history, index); }
    else { RemoveAtOutOfRange(history, index); }
  }
}
