/**
  Reading progress (services/syncService.ts): a map from book id to the last location
  and the time it was saved, and the id of the last book saved, kept in a key-value
  store. `Date.now()` is a parameter.
*/
module SyncService {
  import opened Wrappers
  import opened Types

  datatype ProgressData = ProgressData(location: Location, lastRead: int)

  /** The two records of the store: the progress map and the last-book record (None when the key is absent). */
  datatype SyncState = SyncState(progress: map<string, ProgressData>, lastBook: Option<string>)

  const Empty := SyncState(map[], None)

  /** JavaScript truthiness of a location: 0 and "" are falsy. */
  predicate Truthy(location: Location) {
    match location
    case Page(n) => n != 0
    case Position(cfi) => cfi != ""
  }

  /** `saveBookProgress`: overwrite the book's entry and point the last-book record at it. */
  function Save(s: SyncState, bookId: string, location: Location, now: int): SyncState {
    SyncState(s.progress[bookId := ProgressData(location, now)], Some(bookId))
  }

  /** `getBookProgress`: the stored location, or null when there is no entry or the location is falsy. */
  function Get(s: SyncState, bookId: string): Option<Location> {
    if bookId in s.progress && Truthy(s.progress[bookId].location) then Some(s.progress[bookId].location) else None
  }

  /** `getLastReadBookId`. */
  function LastRead(s: SyncState): Option<string> {
    s.lastBook
  }

  /** `clearProgress`: delete the book's entry; the last-book record stays. */
  function Clear(s: SyncState, bookId: string): SyncState {
    SyncState(s.progress - {bookId}, s.lastBook)
  }

  /** After a save the book's entry holds the location and the time, nothing else in the map changes, and the last-book record names the book. */
  lemma SaveUpdatesOnlyItsEntry(s: SyncState, bookId: string, location: Location, now: int)
    ensures var t := Save(s, bookId, location, now);
      && t.progress.Keys == s.progress.Keys + {bookId}
      && t.progress[bookId] == ProgressData(location, now)
      && (forall b :: b in s.progress && b != bookId ==> t.progress[b] == s.progress[b])
      && LastRead(t) == Some(bookId)
  {
  }

  /** Last write wins: saving a book twice is the same as saving only the second location. */
  lemma SaveTwiceKeepsSecond(s: SyncState, bookId: string, l1: Location, t1: int, l2: Location, t2: int)
    ensures Save(Save(s, bookId, l1, t1), bookId, l2, t2) == Save(s, bookId, l2, t2)
  {
    assert Save(Save(s, bookId, l1, t1), bookId, l2, t2).progress == Save(s, bookId, l2, t2).progress;
  }

  /** Reading back a saved location gives it, unless it is falsy (page 0 or ""), which reads back as null. */
  lemma GetAfterSave(s: SyncState, bookId: string, location: Location, now: int)
    ensures Get(Save(s, bookId, location, now), bookId) == (if Truthy(location) then Some(location) else None)
  {
  }

  /** Saving one book does not change what is read for another. */
  lemma SaveKeepsOthers(s: SyncState, bookId: string, other: string, location: Location, now: int)
    requires other != bookId
    ensures Get(Save(s, bookId, location, now), other) == Get(s, other)
  {
  }

  /** Clearing removes exactly the book's entry and keeps the last-book record. */
  lemma ClearRemovesOnlyItsEntry(s: SyncState, bookId: string)
    ensures var t := Clear(s, bookId);
      && t.progress.Keys == s.progress.Keys - {bookId}
      && (forall b :: b in t.progress ==> t.progress[b] == s.progress[b])
      && t.lastBook == s.lastBook
      && Get(t, bookId) == None
  {
  }

  /** Clearing a book without an entry changes nothing. */
  lemma ClearAbsentIsNoOp(s: SyncState, bookId: string)
    requires bookId !in s.progress
    ensures Clear(s, bookId) == s
  {
    assert s.progress - {bookId} == s.progress;
  }

  /** A sequence of calls to the store, for reasoning about histories. */
  datatype Op = SaveOp(bookId: string, location: Location, now: int) | ClearOp(bookId: string)

  function Apply(s: SyncState, op: Op): SyncState {
    match op
    case SaveOp(b, l, t) => Save(s, b, l, t)
    case ClearOp(b) => Clear(s, b)
  }

  function Run(s: SyncState, ops: seq<Op>): SyncState
    decreases |ops|
  {
    if |ops| == 0 then s else Run(Apply(s, ops[0]), ops[1..])
  }

  /** The id of the last save in a history, if any. */
  function LastSaved(ops: seq<Op>): Option<string>
    decreases |ops|
  {
    if |ops| == 0 then None
    else if ops[|ops| - 1].SaveOp? then Some(ops[|ops| - 1].bookId)
    else LastSaved(ops[..|ops| - 1])
  }

  lemma {:induction false} RunAppend(s: SyncState, ops: seq<Op>, op: Op)
    ensures Run(s, ops + [op]) == Apply(Run(s, ops), op)
    decreases |ops|
  {
    if |ops| > 0 {
      assert (ops + [op])[1..] == ops[1..] + [op];
      RunAppend(Apply(s, ops[0]), ops[1..], op);
    }
  }

  /** From an empty store, `getLastReadBookId` is the id of the most recent save, and null if nothing was ever saved. */
  lemma {:induction false} LastReadIsLastSaved(ops: seq<Op>)
    ensures LastRead(Run(Empty, ops)) == LastSaved(ops)
    decreases |ops|
  {
    if |ops| > 0 {
      var init, last := ops[..|ops| - 1], ops[|ops| - 1];
      assert ops == init + [last];
      RunAppend(Empty, init, last);
      LastReadIsLastSaved(init);
    }
  }

  /**
    The store as the application sees it. Every call reads the records, changes the
    progress map and the last-book record as the functions above say, and writes them back.
  */
  class ProgressStore {
    var progress: map<string, ProgressData>
    var lastBook: Option<string>

    function State(): SyncState
      reads this
    {
      SyncState(progress, lastBook)
    }

    /** A store holding neither record. */
    constructor ()
      ensures State() == Empty
    {
      progress := map[];
      lastBook := None;
    }

    method SaveBookProgress(bookId: string, location: Location, now: int)
      modifies this
      ensures State() == Save(old(State()), bookId, location, now)
      ensures progress.Keys == old(progress.Keys) + {bookId}
      ensures progress[bookId] == ProgressData(location, now) && lastBook == Some(bookId)
      ensures forall b :: b in old(progress) && b != bookId ==> progress[b] == old(progress)[b]
    {
      progress := progress[bookId := ProgressData(location, now)];
      lastBook := Some(bookId);
    }

    method GetBookProgress(bookId: string) returns (r: Option<Location>)
      ensures r == Get(State(), bookId)
      ensures r.Some? ==> bookId in progress && progress[bookId].location == r.value && Truthy(r.value)
      ensures r.None? ==> bookId !in progress || !Truthy(progress[bookId].location)
    {
      if bookId in progress && Truthy(progress[bookId].location) {
        r := Some(progress[bookId].location);
      } else {
        r := None;
      }
    }

    method GetLastReadBookId() returns (r: Option<string>)
      ensures r == LastRead(State()) && r == lastBook
    {
      r := lastBook;
    }

    method ClearProgress(bookId: string)
      modifies this
      ensures State() == Clear(old(State()), bookId)
      ensures progress.Keys == old(progress.Keys) - {bookId} && lastBook == old(lastBook)
      ensures forall b :: b in progress ==> progress[b] == old(progress)[b]
      ensures bookId !in old(progress) ==> progress == old(progress)
    {
      progress := progress - {bookId};
    }
  }
}
