/** Restoring a table from its JSON lines: three loops that fill and reuse one batch buffer, and
    the one specification all of them meet. */
module Restore {

  /** A line as the parser sees it. */
  datatype Line<T> = Blank | Malformed | Record(value: T)

  /** One insert statement: the batch handed to the database and whether it was taken. */
  datatype Attempt<T> = Attempt(batch: seq<T>, ok: bool)

  datatype Log<T> = Log(attempts: seq<Attempt<T>>, restored: map<string, nat>, errors: map<string, nat>)

  // ---------- what a restore is to do ----------

  function Records<T>(lines: seq<Line<T>>, cleanup: T -> T): seq<T> {
    if lines == [] then []
    else
      var rest, last := Records(lines[..|lines| - 1], cleanup), lines[|lines| - 1];
      if last.Record? then rest + [cleanup(last.value)] else rest
  }

  function Malformeds<T>(lines: seq<Line<T>>): nat {
    if lines == [] then 0 else Malformeds(lines[..|lines| - 1]) + if lines[|lines| - 1].Malformed? then 1 else 0
  }

  function NonBlank<T>(lines: seq<Line<T>>): nat {
    if lines == [] then 0 else NonBlank(lines[..|lines| - 1]) + if lines[|lines| - 1].Blank? then 0 else 1
  }

  function Chunks<T>(records: seq<T>, n: nat): seq<seq<T>>
    requires n > 0
    decreases |records|
  {
    if records == [] then []
    else if |records| <= n then [records]
    else [records[..n]] + Chunks(records[n..], n)
  }

  function Concat<T>(chunks: seq<seq<T>>): seq<T> {
    if chunks == [] then [] else chunks[0] + Concat(chunks[1..])
  }

  function Batches<T>(attempts: seq<Attempt<T>>): seq<seq<T>> {
    if attempts == [] then []
    else Batches(attempts[..|attempts| - 1]) + [attempts[|attempts| - 1].batch]
  }

  function Taken<T>(attempts: seq<Attempt<T>>, ok: bool): nat {
    if attempts == [] then 0
    else
      var last := attempts[|attempts| - 1];
      Taken(attempts[..|attempts| - 1], ok) + if last.ok == ok then |last.batch| else 0
  }

  /** Go's `m[key] += k`, not run for zero. */
  function Bump(m: map<string, nat>, key: string, k: nat): map<string, nat> {
    if k == 0 then m else m[key := (if key in m then m[key] else 0) + k]
  }

  /** The batches handed over are the parsed records in order, cut every `n`; a record counts as
      restored or as an error with its batch, a malformed line as an error. */
  ghost predicate Meets<T>(before: Log<T>, after: Log<T>, lines: seq<Line<T>>, cleanup: T -> T, n: nat, dryRun: bool,
                           table: string)
    requires n > 0
  {
    && before.attempts <= after.attempts
    && var added := after.attempts[|before.attempts|..];
    && Batches(added) == (if dryRun then [] else Chunks(Records(lines, cleanup), n))
    && after.restored == Bump(before.restored, table, if dryRun then |Records(lines, cleanup)| else Taken(added, true))
    && after.errors == Bump(before.errors, table, Malformeds(lines) + Taken(added, false))
  }

  // ---------- what that means ----------

  /** Cutting loses, repeats and reorders nothing; all chunks but the last are full. */
  lemma {:induction false} ChunksAreTheRecords<T>(records: seq<T>, n: nat)
    requires n > 0
    ensures Concat(Chunks(records, n)) == records
    ensures forall i :: 0 <= i < |Chunks(records, n)| ==> 0 < |Chunks(records, n)[i]| <= n
    ensures forall i :: 0 <= i < |Chunks(records, n)| - 1 ==> |Chunks(records, n)[i]| == n
    decreases |records|
  {
    if records == [] {
    } else if |records| <= n {
      assert Concat([records]) == records + [];
    } else {
      ChunksAreTheRecords(records[n..], n);
      assert Chunks(records, n)[1..] == Chunks(records[n..], n);
    }
  }

  lemma {:induction false} EveryLineCounted<T>(lines: seq<Line<T>>, cleanup: T -> T)
    ensures |Records(lines, cleanup)| + Malformeds(lines) == NonBlank(lines)
  {
    if lines != [] {
      EveryLineCounted(lines[..|lines| - 1], cleanup);
    }
  }

  lemma {:induction false} ConcatSnoc<T>(chunks: seq<seq<T>>, last: seq<T>)
    ensures Concat(chunks + [last]) == Concat(chunks) + last
  {
    if chunks == [] {
      assert chunks + [last] == [last];
      assert Concat([last]) == last + [];
    } else {
      assert (chunks + [last])[1..] == chunks[1..] + [last];
      ConcatSnoc(chunks[1..], last);
    }
  }

  lemma {:induction false} AllTaken<T>(attempts: seq<Attempt<T>>)
    ensures Taken(attempts, true) + Taken(attempts, false) == |Concat(Batches(attempts))|
  {
    if attempts != [] {
      AllTaken(attempts[..|attempts| - 1]);
      ConcatSnoc(Batches(attempts[..|attempts| - 1]), attempts[|attempts| - 1].batch);
    }
  }

  function Count(m: map<string, nat>, key: string): nat { if key in m then m[key] else 0 }

  /** Conservation: for any lines, any batch size and any pattern of failing inserts, every
      non-blank line is counted once, as restored or as an error, and no other table's counters
      move. */
  lemma RestoreConserves<T>(before: Log<T>, after: Log<T>, lines: seq<Line<T>>, cleanup: T -> T, n: nat, dryRun: bool,
                            table: string)
    requires n > 0 && Meets(before, after, lines, cleanup, n, dryRun, table)
    ensures Count(after.restored, table) + Count(after.errors, table) ==
            Count(before.restored, table) + Count(before.errors, table) + NonBlank(lines)
    ensures forall other :: other != table ==> Count(after.restored, other) == Count(before.restored, other)
                                               && Count(after.errors, other) == Count(before.errors, other)
  {
    var added := after.attempts[|before.attempts|..];
    EveryLineCounted(lines, cleanup);
    ChunksAreTheRecords(Records(lines, cleanup), n);
    AllTaken(added);
    if dryRun {
      assert Concat(Batches(added)) == [];
    }
  }

  // ---------- progress through the loops ----------

  predicate Whole<T>(records: seq<T>, n: nat)
    requires n > 0
    decreases |records|
  {
    records == [] || (|records| >= n && Whole(records[n..], n))
  }

  lemma {:induction false} OneChunkMore<T>(flushed: seq<T>, chunk: seq<T>, n: nat)
    requires n > 0 && Whole(flushed, n) && 0 < |chunk| <= n
    ensures Chunks(flushed + chunk, n) == Chunks(flushed, n) + [chunk]
    ensures |chunk| == n ==> Whole(flushed + chunk, n)
    decreases |flushed|
  {
    if flushed == [] {
      assert flushed + chunk == chunk;
      assert |chunk| == n ==> chunk[n..] == [];
    } else {
      assert (flushed + chunk)[..n] == flushed[..n] && (flushed + chunk)[n..] == flushed[n..] + chunk;
      OneChunkMore(flushed[n..], chunk, n);
      if |flushed| == n {
        assert flushed[..n] == flushed && flushed[n..] == [];
      }
    }
  }

  /** After the lines `read`: the records `flushed` were handed over, `pending` are in the buffer. */
  ghost predicate Progress<T>(before: Log<T>, now: Log<T>, read: seq<Line<T>>, cleanup: T -> T, n: nat, dryRun: bool,
                              table: string, flushed: seq<T>, pending: seq<T>)
    requires n > 0
  {
    Records(read, cleanup) == flushed + pending && Counted(before, now, Malformeds(read), n, dryRun, table, flushed)
  }

  /** The log once `flushed` was handed over and `bad` lines were malformed. */
  ghost predicate Counted<T>(before: Log<T>, now: Log<T>, bad: nat, n: nat, dryRun: bool, table: string,
                             flushed: seq<T>)
    requires n > 0
  {
    && Whole(flushed, n)
    && before.attempts <= now.attempts
    && var added := now.attempts[|before.attempts|..];
    && Batches(added) == (if dryRun then [] else Chunks(flushed, n))
    && now.restored == Bump(before.restored, table, if dryRun then |flushed| else Taken(added, true))
    && now.errors == Bump(before.errors, table, bad + Taken(added, false))
  }

  lemma OneMoreBad<T>(before: Log<T>, now: Log<T>, bad: nat, more: nat, n: nat, dryRun: bool, table: string,
                      flushed: seq<T>)
    requires n > 0 && more == bad + 1 && Counted(before, now, bad, n, dryRun, table, flushed)
    ensures Counted(before, now.(errors := Bump(now.errors, table, 1)), more, n, dryRun, table, flushed)
  {
    var lost := Taken(now.attempts[|before.attempts|..], false);
    BumpTwice(before.errors, table, bad + lost, 1);
    assert bad + lost + 1 == more + lost;
  }

  /** The counts over the lines read, after one more. */
  lemma OneLineMore<T>(lines: seq<Line<T>>, i: nat, cleanup: T -> T)
    requires i < |lines|
    ensures Records(lines[..i + 1], cleanup) ==
            if lines[i].Record? then Records(lines[..i], cleanup) + [cleanup(lines[i].value)]
            else Records(lines[..i], cleanup)
    ensures Malformeds(lines[..i + 1]) == Malformeds(lines[..i]) + if lines[i].Malformed? then 1 else 0
  {
    assert lines[..i + 1][..i] == lines[..i];
  }

  lemma MalformedRead<T>(before: Log<T>, now: Log<T>, lines: seq<Line<T>>, i: nat, cleanup: T -> T, n: nat,
                         dryRun: bool, table: string, flushed: seq<T>, pending: seq<T>)
    requires n > 0 && i < |lines| && lines[i].Malformed?
    requires Progress(before, now, lines[..i], cleanup, n, dryRun, table, flushed, pending)
    ensures Progress(before, now.(errors := Bump(now.errors, table, 1)), lines[..i + 1], cleanup, n, dryRun, table,
                     flushed, pending)
  {
    OneLineMore(lines, i, cleanup);
    OneMoreBad(before, now, Malformeds(lines[..i]), Malformeds(lines[..i + 1]), n, dryRun, table, flushed);
  }

  lemma RecordRead<T>(before: Log<T>, now: Log<T>, lines: seq<Line<T>>, i: nat, cleanup: T -> T, n: nat, dryRun: bool,
                      table: string, flushed: seq<T>, pending: seq<T>)
    requires n > 0 && i < |lines| && !lines[i].Malformed?
    requires Progress(before, now, lines[..i], cleanup, n, dryRun, table, flushed, pending)
    ensures Progress(before, now, lines[..i + 1], cleanup, n, dryRun, table, flushed,
                     if lines[i].Record? then pending + [cleanup(lines[i].value)] else pending)
  {
    OneLineMore(lines, i, cleanup);
    if lines[i].Record? {
      assert flushed + (pending + [cleanup(lines[i].value)]) == (flushed + pending) + [cleanup(lines[i].value)];
    }
  }

  /** Handing the buffer over. */
  function Flushed<T>(now: Log<T>, batch: seq<T>, dryRun: bool, ok: bool, table: string): Log<T> {
    if dryRun then now.(restored := Bump(now.restored, table, |batch|))
    else
      var attempts := now.attempts + [Attempt(batch, ok)];
      if ok then now.(attempts := attempts, restored := Bump(now.restored, table, |batch|))
      else now.(attempts := attempts, errors := Bump(now.errors, table, |batch|))
  }

  lemma DryFlush<T>(before: Log<T>, now: Log<T>, read: seq<Line<T>>, cleanup: T -> T, n: nat, table: string,
                    flushed: seq<T>, pending: seq<T>, ok: bool)
    requires n > 0 && Progress(before, now, read, cleanup, n, true, table, flushed, pending) && 0 < |pending| <= n
    ensures Meets(before, Flushed(now, pending, true, ok, table), read, cleanup, n, true, table)
    ensures |pending| == n ==>
      Progress(before, Flushed(now, pending, true, ok, table), read, cleanup, n, true, table, flushed + pending, [])
  {
    OneChunkMore(flushed, pending, n);
    assert flushed + pending + [] == flushed + pending;
  }

  lemma BumpTwice(m: map<string, nat>, key: string, a: nat, b: nat)
    ensures Bump(Bump(m, key, a), key, b) == Bump(m, key, a + b)
  {
  }

  /** The totals over the attempts after one more. */
  lemma OneAttemptMore<T>(attempts: seq<Attempt<T>>, from: nat, batch: seq<T>, ok: bool)
    requires from <= |attempts|
    ensures var added, added' := attempts[from..], (attempts + [Attempt(batch, ok)])[from..];
      && Batches(added') == Batches(added) + [batch]
      && Taken(added', ok) == Taken(added, ok) + |batch| && Taken(added', !ok) == Taken(added, !ok)
  {
    var added, added' := attempts[from..], (attempts + [Attempt(batch, ok)])[from..];
    assert added' == added + [Attempt(batch, ok)] && added'[..|added'| - 1] == added;
  }

  /** The counters after a batch was handed over. */
  lemma FlushCounts<T>(before: Log<T>, now: Log<T>, bad: nat, table: string, batch: seq<T>, ok: bool)
    requires before.attempts <= now.attempts
    requires var added := now.attempts[|before.attempts|..];
      && now.restored == Bump(before.restored, table, Taken(added, true))
      && now.errors == Bump(before.errors, table, bad + Taken(added, false))
    ensures var after := Flushed(now, batch, false, ok, table);
      && before.attempts <= after.attempts
      && var added := after.attempts[|before.attempts|..];
      && after.restored == Bump(before.restored, table, Taken(added, true))
      && after.errors == Bump(before.errors, table, bad + Taken(added, false))
  {
    OneAttemptMore(now.attempts, |before.attempts|, batch, ok);
    var after := Flushed(now, batch, false, ok, table);
    var added, added' := now.attempts[|before.attempts|..], after.attempts[|before.attempts|..];
    if ok {
      BumpTwice(before.restored, table, Taken(added, true), |batch|);
      assert after.errors == now.errors && Taken(added', false) == Taken(added, false);
    } else {
      BumpTwice(before.errors, table, bad + Taken(added, false), |batch|);
      assert after.restored == now.restored && Taken(added', true) == Taken(added, true);
    }
  }

  lemma FlushBatches<T>(before: Log<T>, now: Log<T>, n: nat, flushed: seq<T>, pending: seq<T>, ok: bool, table: string)
    requires n > 0 && Whole(flushed, n) && 0 < |pending| <= n && before.attempts <= now.attempts
    requires Batches(now.attempts[|before.attempts|..]) == Chunks(flushed, n)
    ensures var after := Flushed(now, pending, false, ok, table);
      before.attempts <= after.attempts && Batches(after.attempts[|before.attempts|..]) == Chunks(flushed + pending, n)
  {
    OneChunkMore(flushed, pending, n);
    OneAttemptMore(now.attempts, |before.attempts|, pending, ok);
  }

  lemma RealFlush<T>(before: Log<T>, now: Log<T>, read: seq<Line<T>>, cleanup: T -> T, n: nat, table: string,
                     flushed: seq<T>, pending: seq<T>, ok: bool)
    requires n > 0 && Progress(before, now, read, cleanup, n, false, table, flushed, pending) && 0 < |pending| <= n
    ensures Meets(before, Flushed(now, pending, false, ok, table), read, cleanup, n, false, table)
    ensures |pending| == n ==>
      Progress(before, Flushed(now, pending, false, ok, table), read, cleanup, n, false, table, flushed + pending, [])
  {
    FlushCounts(before, now, Malformeds(read), table, pending, ok);
    FlushBatches(before, now, n, flushed, pending, ok, table);
    OneChunkMore(flushed, pending, n);
    assert flushed + pending + [] == flushed + pending;
  }

  lemma BatchFlushed<T>(before: Log<T>, now: Log<T>, read: seq<Line<T>>, cleanup: T -> T, n: nat, dryRun: bool,
                        table: string, flushed: seq<T>, pending: seq<T>, ok: bool)
    requires n > 0 && Progress(before, now, read, cleanup, n, dryRun, table, flushed, pending) && 0 < |pending| <= n
    ensures Meets(before, Flushed(now, pending, dryRun, ok, table), read, cleanup, n, dryRun, table)
    ensures |pending| == n ==>
      Progress(before, Flushed(now, pending, dryRun, ok, table), read, cleanup, n, dryRun, table, flushed + pending, [])
  {
    if dryRun {
      DryFlush(before, now, read, cleanup, n, table, flushed, pending, ok);
    } else {
      RealFlush(before, now, read, cleanup, n, table, flushed, pending, ok);
    }
  }

  /** One round of a loop: the log, what stays in the buffer, and what was handed over. */
  function LogAfter<T>(now: Log<T>, line: Line<T>, pending: seq<T>, cleanup: T -> T, n: nat, dryRun: bool, ok: bool,
                       table: string): Log<T> {
    match line
    case Blank => now
    case Malformed => now.(errors := Bump(now.errors, table, 1))
    case Record(value) =>
      if |pending| + 1 < n then now else Flushed(now, pending + [cleanup(value)], dryRun, ok, table)
  }

  function PendingAfter<T>(line: Line<T>, pending: seq<T>, cleanup: T -> T, n: nat): seq<T> {
    if !line.Record? then pending else if |pending| + 1 < n then pending + [cleanup(line.value)] else []
  }

  function FlushedAfter<T>(line: Line<T>, flushed: seq<T>, pending: seq<T>, cleanup: T -> T, n: nat): seq<T> {
    if line.Record? && |pending| + 1 >= n then flushed + (pending + [cleanup(line.value)]) else flushed
  }

  datatype Loop<T> = Loop(log: Log<T>, flushed: seq<T>, pending: seq<T>)

  /** The loop after `|oks|` rounds; `oks` says which inserts were taken. */
  function Rounds<T>(before: Log<T>, lines: seq<Line<T>>, oks: seq<bool>, cleanup: T -> T, n: nat, dryRun: bool,
                     table: string): (l: Loop<T>)
    requires |oks| <= |lines| && n > 0
    ensures |l.pending| < n
  {
    if oks == [] then Loop(before, [], [])
    else
      var i := |oks| - 1;
      var l := Rounds(before, lines, oks[..i], cleanup, n, dryRun, table);
      Loop(LogAfter(l.log, lines[i], l.pending, cleanup, n, dryRun, oks[i], table),
           FlushedAfter(lines[i], l.flushed, l.pending, cleanup, n), PendingAfter(lines[i], l.pending, cleanup, n))
  }

  lemma OneRound<T>(before: Log<T>, now: Log<T>, lines: seq<Line<T>>, i: nat, cleanup: T -> T, n: nat, dryRun: bool,
                    ok: bool, table: string, flushed: seq<T>, pending: seq<T>)
    requires n > 0 && i < |lines| && |pending| < n
    requires Progress(before, now, lines[..i], cleanup, n, dryRun, table, flushed, pending)
    ensures Progress(before, LogAfter(now, lines[i], pending, cleanup, n, dryRun, ok, table), lines[..i + 1],
                     cleanup, n,
                     dryRun, table, FlushedAfter(lines[i], flushed, pending, cleanup, n),
                     PendingAfter(lines[i], pending, cleanup, n))
  {
    if lines[i].Malformed? {
      MalformedRead(before, now, lines, i, cleanup, n, dryRun, table, flushed, pending);
    } else {
      RecordRead(before, now, lines, i, cleanup, n, dryRun, table, flushed, pending);
    }
    if lines[i].Record? && |pending| + 1 >= n {
      BatchFlushed(before, now, lines[..i + 1], cleanup, n, dryRun, table, flushed,
                   pending + [cleanup(lines[i].value)], ok);
    }
  }

  lemma {:induction false} RoundsProgress<T>(before: Log<T>, lines: seq<Line<T>>, oks: seq<bool>, cleanup: T -> T,
                                             n: nat, dryRun: bool, table: string)
    requires |oks| <= |lines| && n > 0
    ensures var l := Rounds(before, lines, oks, cleanup, n, dryRun, table);
      Progress(before, l.log, lines[..|oks|], cleanup, n, dryRun, table, l.flushed, l.pending)
  {
    if oks == [] {
      assert before.attempts[|before.attempts|..] == [];
    } else {
      var i := |oks| - 1;
      RoundsProgress(before, lines, oks[..i], cleanup, n, dryRun, table);
      var l := Rounds(before, lines, oks[..i], cleanup, n, dryRun, table);
      OneRound(before, l.log, lines, i, cleanup, n, dryRun, oks[i], table, l.flushed, l.pending);
    }
  }

  /** After the last round what is left is handed over, if anything is. */
  lemma RoundsMeet<T>(before: Log<T>, lines: seq<Line<T>>, oks: seq<bool>, cleanup: T -> T, n: nat, dryRun: bool,
                      table: string, ok: bool)
    requires |oks| == |lines| && n > 0
    ensures var l := Rounds(before, lines, oks, cleanup, n, dryRun, table);
      Meets(before, if l.pending == [] then l.log else Flushed(l.log, l.pending, dryRun, ok, table), lines, cleanup, n,
            dryRun, table)
  {
    RoundsProgress(before, lines, oks, cleanup, n, dryRun, table);
    assert lines[..|oks|] == lines;
    var l := Rounds(before, lines, oks, cleanup, n, dryRun, table);
    if l.pending == [] {
      NothingPending(before, l.log, lines, cleanup, n, dryRun, table, l.flushed);
    } else {
      BatchFlushed(before, l.log, lines, cleanup, n, dryRun, table, l.flushed, l.pending, ok);
    }
  }

  lemma NothingPending<T>(before: Log<T>, now: Log<T>, read: seq<Line<T>>, cleanup: T -> T, n: nat, dryRun: bool,
                          table: string, flushed: seq<T>)
    requires n > 0 && Progress(before, now, read, cleanup, n, dryRun, table, flushed, [])
    ensures Meets(before, now, read, cleanup, n, dryRun, table)
  {
    assert flushed + [] == flushed;
  }

  // ---------- the code ----------

  const ALBUM_IMAGES := "album_images"

  class Restorer<T(0)> {
    var attempts: seq<Attempt<T>>
    var restored: map<string, nat>
    var errors: map<string, nat>

    constructor ()
      ensures Current() == Log([], map[], map[])
    {
      attempts, restored, errors := [], map[], map[];
    }

    ghost function Current(): Log<T> reads this { Log(attempts, restored, errors) }

    /** CreateInBatches with one batch. */
    method Create(batch: array<T>, len: nat) returns (err: bool)
      requires len <= batch.Length
      modifies this`attempts
      ensures attempts == old(attempts) + [Attempt(batch[..len], !err)]
    {
      err := *;
      attempts := attempts + [Attempt(batch[..len], !err)];
    }

    /** `insertBatch` and `insertAlbumImagesBatch`. */
    method InsertBatch(batch: array<T>, len: nat, dryRun: bool, table: string) returns (ghost ok: bool)
      requires 0 < len <= batch.Length
      modifies this
      ensures Current() == Flushed(old(Current()), batch[..len], dryRun, ok, table)
    {
      ok := true;
      if dryRun {
        restored := Bump(restored, table, len);
        return;
      }
      var err := Create(batch, len);
      ok := !err;
      if err {
        errors := Bump(errors, table, len);
      } else {
        restored := Bump(restored, table, len);
      }
    }

    /** `restoreBatch`. */
    method RestoreBatch(lines: seq<Line<T>>, batchSize: nat, dryRun: bool, table: string)
      modifies this
      ensures Meets(old(Current()), Current(), lines, (x: T) => x, Capacity(batchSize), dryRun, table)
    {
      ghost var keep := (x: T) => x;
      var n := Capacity(batchSize);
      var batch := new T[n];
      var len, i := 0, 0;
      ghost var before, oks: seq<bool> := Current(), [];
      while i < |lines|
        invariant |oks| == i <= |lines| && len < n == batch.Length && fresh(batch)
        invariant Rounds(before, lines, oks, keep, n, dryRun, table).log == Current()
        invariant Rounds(before, lines, oks, keep, n, dryRun, table).pending == batch[..len]
      {
        ghost var ok := true;
        match lines[i] {
          case Blank =>
          case Malformed => errors := Bump(errors, table, 1);
          case Record(value) =>
            ghost var pending := batch[..len];
            batch[len] := value;
            len := len + 1;
            assert batch[..len] == pending + [value];
            if len >= batchSize {
              ok := InsertBatch(batch, len, dryRun, table);
              len := 0;
            }
        }
        assert (oks + [ok])[..i] == oks;
        oks := oks + [ok];
        i := i + 1;
      }
      ghost var ok := true;
      if len > 0 {
        ok := InsertBatch(batch, len, dryRun, table);
      }
      RoundsMeet(before, lines, oks, keep, n, dryRun, table, ok);
    }

    /** `restoreAlbumImagesBatch`: another record type, and its own table name. */
    method RestoreAlbumImagesBatch(lines: seq<Line<T>>, batchSize: nat, dryRun: bool)
      modifies this
      ensures Meets(old(Current()), Current(), lines, (x: T) => x, Capacity(batchSize), dryRun, ALBUM_IMAGES)
    {
      var table := ALBUM_IMAGES;
      ghost var keep := (x: T) => x;
      var n := Capacity(batchSize);
      var batch := new T[n];
      var len, i := 0, 0;
      ghost var before, oks: seq<bool> := Current(), [];
      while i < |lines|
        invariant |oks| == i <= |lines| && len < n == batch.Length && fresh(batch)
        invariant Rounds(before, lines, oks, keep, n, dryRun, table).log == Current()
        invariant Rounds(before, lines, oks, keep, n, dryRun, table).pending == batch[..len]
      {
        ghost var ok := true;
        match lines[i] {
          case Blank =>
          case Malformed => errors := Bump(errors, table, 1);
          case Record(value) =>
            ghost var pending := batch[..len];
            batch[len] := value;
            len := len + 1;
            assert batch[..len] == pending + [value];
            if len >= batchSize {
              ok := InsertBatch(batch, len, dryRun, table);
              len := 0;
            }
        }
        assert (oks + [ok])[..i] == oks;
        oks := oks + [ok];
        i := i + 1;
      }
      ghost var ok := true;
      if len > 0 {
        ok := InsertBatch(batch, len, dryRun, table);
      }
      RoundsMeet(before, lines, oks, keep, n, dryRun, table, ok);
    }

    /** The insert as `restoreBatchWithCleanup` writes it out, twice. */
    method InsertInLine(batch: array<T>, len: nat, dryRun: bool, table: string) returns (ghost ok: bool)
      requires 0 < len <= batch.Length
      modifies this
      ensures Current() == Flushed(old(Current()), batch[..len], dryRun, ok, table)
    {
      ok := true;
      if !dryRun {
        var err := Create(batch, len);
        ok := !err;
        if err {
          errors := Bump(errors, table, len);
        } else {
          restored := Bump(restored, table, len);
        }
      } else {
        restored := Bump(restored, table, len);
      }
    }

    /** `restoreBatchWithCleanup`: every record is cleaned first. */
    method RestoreBatchWithCleanup(lines: seq<Line<T>>, batchSize: nat, dryRun: bool, table: string, cleanup: T -> T)
      modifies this
      ensures Meets(old(Current()), Current(), lines, cleanup, Capacity(batchSize), dryRun, table)
    {
      var n := Capacity(batchSize);
      var batch := new T[n];
      var len, i := 0, 0;
      ghost var before, oks: seq<bool> := Current(), [];
      while i < |lines|
        invariant |oks| == i <= |lines| && len < n == batch.Length && fresh(batch)
        invariant Rounds(before, lines, oks, cleanup, n, dryRun, table).log == Current()
        invariant Rounds(before, lines, oks, cleanup, n, dryRun, table).pending == batch[..len]
      {
        ghost var ok := true;
        match lines[i] {
          case Blank =>
          case Malformed => errors := Bump(errors, table, 1);
          case Record(value) =>
            ghost var pending := batch[..len];
            batch[len] := cleanup(value);
            len := len + 1;
            assert batch[..len] == pending + [cleanup(value)];
            if len >= batchSize {
              ok := InsertInLine(batch, len, dryRun, table);
              len := 0;
            }
        }
        assert (oks + [ok])[..i] == oks;
        oks := oks + [ok];
        i := i + 1;
      }
      ghost var ok := true;
      if len > 0 {
        ok := InsertInLine(batch, len, dryRun, table);
      }
      RoundsMeet(before, lines, oks, cleanup, n, dryRun, table, ok);
    }
  }

  /** Appending to a slice without room grows it to one. */
  function Capacity(batchSize: nat): (n: nat)
    ensures n > 0
  {
    if batchSize == 0 then 1 else batchSize
  }
}
