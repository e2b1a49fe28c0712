/** `fetch_verified`: download to a partial file, verify, rename into place.

    The two files it touches, and everything the network and the file system can
    do to it. Hashing is a parameter; feeding it block by block is feeding it
    the blocks' concatenation. */
module Download {
  import opened Options
  import opened Sequences
  import opened Text

  type Bytes = seq<bv8>

  datatype Files = Files(dest: Option<Bytes>, part: Option<Bytes>)

  /** What the caller pins: the hash, and the size if it is known. */
  datatype Pin = Pin(hash: Bytes -> string, sha256: string, size: Option<nat>)

  predicate Pinned(pin: Pin, bytes: Bytes) {
    pin.hash(bytes) == Lower(pin.sha256) && (pin.size.Some? ==> |bytes| == pin.size.value)
  }

  datatype Header = Missing | Malformed | Length(n: int)

  /** How the reads after the last block end: the stream is over, it raises
      something the download handles, or something it lets through. */
  datatype Ending = EndOfStream | Raises(handled: bool)

  /** Whether the server answers; if not, whether the error is one the download handles. */
  datatype Answer = Answers | NoAnswer(handled: bool)

  /** One attempt's surroundings. `writeFails` names the block whose write fails
      and how many of its bytes landed before that. */
  datatype Env = Env(
    https: bool, prepares: bool, answers: Answer, opens: bool, header: Header,
    blocks: seq<Bytes>, ending: Ending, writeFails: Option<(nat, nat)>, closes: bool,
    discards: bool, renames: bool, unlinksAfter: bool)

  datatype Reason = NotHttps | NotFinished | TooBig | WrongSize | WrongHash | NotPlaced

  datatype Result = Done | DownloadError(reason: Reason) | OtherError

  /** The files now, and every state they have been in, this one included. */
  datatype Disk = Disk(files: Files, trail: seq<Files>)

  function Move(d: Disk, files: Files): Disk {
    Disk(files, d.trail + [files])
  }

  function SetPart(d: Disk, part: Option<Bytes>): Disk {
    Move(d, d.files.(part := part))
  }

  datatype Outcome = Outcome(disk: Disk, progress: seq<nat>, result: Result)

  // ---------------------------------------------------------------------
  // The attempt, as a function of what happens to it
  // ---------------------------------------------------------------------

  datatype LoopEnd = Complete(bytes: Bytes) | Handled | Oversized | Escaped

  datatype Loop = Loop(disk: Disk, progress: seq<nat>, end: LoopEnd)

  /** The pinned size if it is there and not zero, else the header's. */
  function Total(pin: Pin, e: Env): Option<int> {
    if pin.size.Some? && pin.size.value != 0 then Some(pin.size.value)
    else match e.header
      case Missing => Some(0)
      case Malformed => None
      case Length(n) => Some(n)
  }

  function Percent(received: nat, total: int): nat
    requires total > 0
  {
    if 100 < received * 100 / total then 100 else received * 100 / total
  }

  function Report(progress: seq<nat>, received: nat, total: int): seq<nat> {
    if total > 0 then progress + [Percent(received, total)] else progress
  }

  predicate TooMuch(pin: Pin, got: Bytes) {
    pin.size.Some? && |got| > pin.size.value
  }

  predicate WriteFails(e: Env, i: nat) {
    e.writeFails.Some? && e.writeFails.value.0 == i
  }

  /** What a failed write leaves of its block. */
  function Torn(e: Env, block: Bytes): Bytes
    requires e.writeFails.Some?
  {
    if e.writeFails.value.1 <= |block| then block[..e.writeFails.value.1] else block
  }

  function AfterReads(e: Env, got: Bytes): LoopEnd {
    match e.ending
    case EndOfStream => Complete(got)
    case Raises(handled) => if handled then Handled else Escaped
  }

  /** The read loop from block `i` on, with `got` received so far. */
  function ReadFrom(pin: Pin, e: Env, total: int, i: nat, got: Bytes, d: Disk, progress: seq<nat>): Loop
    requires i <= |e.blocks|
    decreases |e.blocks| - i
  {
    if i == |e.blocks| then Loop(d, progress, AfterReads(e, got))
    else if e.blocks[i] == [] then Loop(d, progress, Complete(got))
    else if WriteFails(e, i) then Loop(SetPart(d, Some(got + Torn(e, e.blocks[i]))), progress, Handled)
    else
      var more := got + e.blocks[i];
      if TooMuch(pin, more) then Loop(SetPart(d, Some(more)), progress, Oversized)
      else
        ReadFrom(pin, e, total, i + 1, more, SetPart(d, Some(more)), Report(progress, |more|, total))
  }

  /** Removing the partial file, then raising `reason`; a removal that fails
      raises its own error instead. */
  function Discard(e: Env, d: Disk, progress: seq<nat>, reason: Reason): Outcome {
    if d.files.part == None then Outcome(d, progress, DownloadError(reason))
    else if e.discards then Outcome(SetPart(d, None), progress, DownloadError(reason))
    else Outcome(d, progress, OtherError)
  }

  function Place(pin: Pin, e: Env, d: Disk, progress: seq<nat>, bytes: Bytes): Outcome {
    if pin.size.Some? && |bytes| != pin.size.value then Discard(e, d, progress, WrongSize)
    else if pin.hash(bytes) != Lower(pin.sha256) then Discard(e, d, progress, WrongHash)
    else if e.renames then Outcome(Move(d, Files(d.files.part, None)), progress, Done)
    else Outcome(if e.unlinksAfter then SetPart(d, None) else d, progress, DownloadError(NotPlaced))
  }

  /** After the loop. A partial file that fails to close raises an error that is
      handled, in place of whatever was on its way. */
  function Conclude(pin: Pin, e: Env, d: Disk, progress: seq<nat>, end: LoopEnd): Outcome {
    match end
    case Complete(bytes) =>
      if e.closes then Place(pin, e, d, progress, bytes) else Discard(e, d, progress, NotFinished)
    case Handled => Discard(e, d, progress, NotFinished)
    case Oversized => Discard(e, d, progress, if e.closes then TooBig else NotFinished)
    case Escaped => if e.closes then Outcome(d, progress, OtherError) else Discard(e, d, progress, NotFinished)
  }

  function Transfer(pin: Pin, e: Env, d: Disk): Outcome {
    var total := Total(pin, e);
    if total == None then Discard(e, d, [], NotFinished)
    else
      var loop := ReadFrom(pin, e, total.value, 0, [], d, []);
      Conclude(pin, e, loop.disk, loop.progress, loop.end)
  }

  function Fetch(pin: Pin, e: Env, d: Disk): Outcome {
    if !e.https then Outcome(d, [], DownloadError(NotHttps))
    else if !e.prepares then Outcome(d, [], OtherError)
    else
      var clean := SetPart(d, None);
      if e.answers.NoAnswer? && !e.answers.handled then Outcome(clean, [], OtherError)
      else if e.answers.NoAnswer? || !e.opens then Outcome(clean, [], DownloadError(NotFinished))
      else Transfer(pin, e, SetPart(clean, Some([])))
  }

  // ---------------------------------------------------------------------
  // The attempt, step by step
  // ---------------------------------------------------------------------

  class Downloader {
    var dest: Option<Bytes>
    var part: Option<Bytes>
    var reports: seq<nat>
    /** Every state the two files have been in. */
    ghost var trail: seq<Files>

    ghost function Now(): Disk
      reads this
    {
      Disk(Files(dest, part), trail)
    }

    constructor (dest: Option<Bytes>, part: Option<Bytes>)
      ensures Now() == Disk(Files(dest, part), [Files(dest, part)]) && reports == []
    {
      this.dest, this.part, reports := dest, part, [];
      trail := [Files(dest, part)];
    }

    method Write(bytes: Option<Bytes>)
      modifies this`part, this`trail
      ensures Now() == SetPart(old(Now()), bytes)
      ensures part == bytes && trail == old(trail) + [Files(dest, bytes)]
    {
      part := bytes;
      trail := trail + [Files(dest, part)];
    }

    /** `partial.unlink(missing_ok=True)` on the way to raising. */
    method DiscardPart(e: Env, reason: Reason) returns (result: Result)
      modifies this`part, this`trail
      ensures Outcome(Now(), reports, result) == Discard(e, old(Now()), reports, reason)
    {
      if part == None {
        return DownloadError(reason);
      }
      if !e.discards {
        return OtherError;
      }
      Write(None);
      result := DownloadError(reason);
    }

    /** The loop: write, digest, count, check the size, report. */
    method Receive(pin: Pin, e: Env, total: int) returns (end: LoopEnd)
      requires part == Some([]) && reports == []
      modifies this
      ensures Loop(Now(), reports, end) == ReadFrom(pin, e, total, 0, [], old(Now()), [])
    {
      var digest: Bytes := [];
      var received: nat := 0;
      var i := 0;
      while i < |e.blocks| && e.blocks[i] != []
        invariant 0 <= i <= |e.blocks|
        invariant part == Some(digest) && received == |digest|
        invariant ReadFrom(pin, e, total, 0, [], old(Now()), [])
               == ReadFrom(pin, e, total, i, digest, Now(), reports)
      {
        var block := e.blocks[i];
        if WriteFails(e, i) {
          Write(Some(part.value + Torn(e, block)));
          return Handled;
        }
        Write(Some(part.value + block));
        digest := digest + block;
        received := received + |block|;
        if pin.size.Some? && received > pin.size.value {
          return Oversized;
        }
        reports := Report(reports, received, total);
        i := i + 1;
      }
      end := if i < |e.blocks| then Complete(digest) else AfterReads(e, digest);
    }

    method PutInPlace(pin: Pin, e: Env, bytes: Bytes) returns (result: Result)
      modifies this`dest, this`part, this`trail
      ensures Outcome(Now(), reports, result) == Place(pin, e, old(Now()), reports, bytes)
    {
      if pin.size.Some? && |bytes| != pin.size.value {
        result := DiscardPart(e, WrongSize);
        return;
      }
      if pin.hash(bytes) != Lower(pin.sha256) {
        result := DiscardPart(e, WrongHash);
        return;
      }
      if e.renames {
        dest, part := part, None;
        trail := trail + [Files(dest, part)];
        return Done;
      }
      if e.unlinksAfter {
        Write(None);
      }
      result := DownloadError(NotPlaced);
    }

    method FetchVerified(pin: Pin, e: Env) returns (result: Result)
      requires reports == []
      modifies this
      ensures Outcome(Now(), reports, result) == Fetch(pin, e, old(Now()))
    {
      if !e.https {
        return DownloadError(NotHttps);
      }
      if !e.prepares {
        return OtherError;
      }
      Write(None);
      if e.answers.NoAnswer? && !e.answers.handled {
        return OtherError;
      }
      if e.answers.NoAnswer? || !e.opens {
        return DownloadError(NotFinished);
      }
      Write(Some([]));
      var total := Total(pin, e);
      if total == None {
        result := DiscardPart(e, NotFinished);
        return;
      }
      var end := Receive(pin, e, total.value);
      match end {
        case Complete(bytes) =>
          if e.closes {
            result := PutInPlace(pin, e, bytes);
          } else {
            result := DiscardPart(e, NotFinished);
          }
        case Handled => result := DiscardPart(e, NotFinished);
        case Oversized => result := DiscardPart(e, if e.closes then TooBig else NotFinished);
        case Escaped =>
          if e.closes {
            result := OtherError;
          } else {
            result := DiscardPart(e, NotFinished);
          }
      }
    }
  }

  // ---------------------------------------------------------------------
  // Crashes at any step, and any number of attempts
  // ---------------------------------------------------------------------

  ghost predicate DestOk(pin: Pin, original: Option<Bytes>, files: Files) {
    files.dest == original || (files.dest.Some? && Pinned(pin, files.dest.value))
  }

  /** Every state so far is safe, and the last one is the present. */
  ghost predicate TrailOk(pin: Pin, original: Option<Bytes>, d: Disk) {
    && d.trail != [] && d.trail[|d.trail| - 1] == d.files
    && forall i :: 0 <= i < |d.trail| ==> DestOk(pin, original, d.trail[i])
  }

  lemma MoveOk(pin: Pin, original: Option<Bytes>, d: Disk, files: Files)
    requires TrailOk(pin, original, d) && DestOk(pin, original, files)
    ensures TrailOk(pin, original, Move(d, files))
  {
  }

  /** The loop leaves the destination alone, and when it completes, the partial
      file is what was hashed. */
  lemma {:induction false} LoopOk(
      pin: Pin, original: Option<Bytes>, e: Env, total: int, i: nat, got: Bytes, d: Disk, progress: seq<nat>)
    requires i <= |e.blocks| && TrailOk(pin, original, d) && d.files.part == Some(got)
    ensures var loop := ReadFrom(pin, e, total, i, got, d, progress);
            && TrailOk(pin, original, loop.disk) && loop.disk.files.dest == d.files.dest
            && loop.disk.files.part.Some?
            && (loop.end.Complete? ==> loop.disk.files.part == Some(loop.end.bytes))
    decreases |e.blocks| - i
  {
    if i < |e.blocks| && e.blocks[i] != [] {
      var more := got + e.blocks[i];
      if WriteFails(e, i) {
        MoveOk(pin, original, d, d.files.(part := Some(got + Torn(e, e.blocks[i]))));
      } else {
        MoveOk(pin, original, d, d.files.(part := Some(more)));
        if !TooMuch(pin, more) {
          LoopOk(pin, original, e, total, i + 1, more, SetPart(d, Some(more)), Report(progress, |more|, total));
        }
      }
    }
  }

  lemma ConcludeOk(pin: Pin, original: Option<Bytes>, e: Env, d: Disk, progress: seq<nat>, end: LoopEnd)
    requires TrailOk(pin, original, d) && d.files.part.Some?
    requires end.Complete? ==> d.files.part == Some(end.bytes)
    ensures TrailOk(pin, original, Conclude(pin, e, d, progress, end).disk)
  {
    MoveOk(pin, original, d, d.files.(part := None));
    if end.Complete? && Pinned(pin, end.bytes) {
      MoveOk(pin, original, d, Files(d.files.part, None));
    }
  }

  lemma EveryStateIsSafe(pin: Pin, original: Option<Bytes>, e: Env, d: Disk)
    requires TrailOk(pin, original, d)
    ensures TrailOk(pin, original, Fetch(pin, e, d).disk)
  {
    MoveOk(pin, original, d, d.files.(part := None));
    var clean := SetPart(d, None);
    MoveOk(pin, original, clean, clean.files.(part := Some([])));
    var empty := SetPart(clean, Some([]));
    MoveOk(pin, original, empty, empty.files.(part := None));
    if Total(pin, e).Some? {
      LoopOk(pin, original, e, Total(pin, e).value, 0, [], empty, []);
      var loop := ReadFrom(pin, e, Total(pin, e).value, 0, [], empty, []);
      ConcludeOk(pin, original, e, loop.disk, loop.progress, loop.end);
    }
  }

  /** One attempt that may die after any of the states it goes through. */
  datatype Attempt = Attempt(env: Env, diesAfter: nat)

  function Survive(pin: Pin, f: Files, a: Attempt): Files {
    var trail := Fetch(pin, a.env, Disk(f, [f])).disk.trail;
    if a.diesAfter < |trail| then trail[a.diesAfter] else if trail == [] then f else trail[|trail| - 1]
  }

  function SurviveAll(pin: Pin, f: Files, attempts: seq<Attempt>): Files {
    if attempts == [] then f
    else Survive(pin, SurviveAll(pin, f, attempts[..|attempts| - 1]), attempts[|attempts| - 1])
  }

  /** Whole or absent: after any sequence of attempts, each cut off at any step,
      the destination is what it was at first or bytes with the pinned hash
      (and the pinned size). */
  lemma {:induction false} DestinationIsWholeOrUntouched(pin: Pin, f: Files, attempts: seq<Attempt>)
    ensures DestOk(pin, f.dest, SurviveAll(pin, f, attempts))
  {
    if attempts != [] {
      var before := SurviveAll(pin, f, attempts[..|attempts| - 1]);
      DestinationIsWholeOrUntouched(pin, f, attempts[..|attempts| - 1]);
      EveryStateIsSafe(pin, f.dest, attempts[|attempts| - 1].env, Disk(before, [before]));
    }
  }

  lemma {:induction false} LoopKeepsDest(pin: Pin, e: Env, total: int, i: nat, got: Bytes, d: Disk, progress: seq<nat>)
    requires i <= |e.blocks| && d.files.part.Some?
    ensures var loop := ReadFrom(pin, e, total, i, got, d, progress);
            loop.disk.files.dest == d.files.dest && loop.disk.files.part.Some?
    decreases |e.blocks| - i
  {
    if i < |e.blocks| && e.blocks[i] != [] && !WriteFails(e, i) {
      var more := got + e.blocks[i];
      if !TooMuch(pin, more) {
        LoopKeepsDest(pin, e, total, i + 1, more, SetPart(d, Some(more)), Report(progress, |more|, total));
      }
    }
  }

  // ---------------------------------------------------------------------
  // What an attempt comes to, in terms of what happens to it
  // ---------------------------------------------------------------------

  /** The blocks read before an empty one says the stream is over. */
  function ReadBlocks(blocks: seq<Bytes>): (r: seq<Bytes>)
    ensures |r| <= |blocks|
  {
    if blocks == [] || blocks[0] == [] then [] else [blocks[0]] + ReadBlocks(blocks[1..])
  }

  function Received(e: Env): Bytes {
    Flatten(ReadBlocks(e.blocks))
  }

  /** The reads come to the end of the stream. */
  predicate AtEnd(e: Env) {
    |ReadBlocks(e.blocks)| < |e.blocks| || e.ending == EndOfStream
  }

  /** Every block read is written, and they are not more than pinned. */
  predicate Sound(pin: Pin, e: Env) {
    && !(e.writeFails.Some? && e.writeFails.value.0 < |ReadBlocks(e.blocks)|)
    && !TooMuch(pin, Received(e))
  }

  /** A read raises something that neither handler catches, and the partial file
      closes on the way out. */
  predicate Escapes(pin: Pin, e: Env) {
    Total(pin, e).Some? && Sound(pin, e) && !AtEnd(e) && e.ending == Raises(false) && e.closes
  }

  /** The whole stream was written, and its bytes are the pinned ones. */
  predicate Verified(pin: Pin, e: Env) {
    Total(pin, e).Some? && Sound(pin, e) && AtEnd(e) && e.closes && Pinned(pin, Received(e))
  }

  predicate Starts(e: Env) {
    e.https && e.prepares && e.answers == Answers && e.opens
  }

  lemma {:induction false} LoopEnds(
      pin: Pin, e: Env, total: int, i: nat, got: Bytes, d: Disk, progress: seq<nat>)
    requires i <= |e.blocks| && !TooMuch(pin, got) && d.files.part.Some?
    ensures var more := ReadBlocks(e.blocks[i..]);
            var end := ReadFrom(pin, e, total, i, got, d, progress).end;
            if (e.writeFails.Some? && i <= e.writeFails.value.0 < i + |more|) || TooMuch(pin, got + Flatten(more))
            then end == Handled || end == Oversized
            else end == if |more| < |e.blocks| - i then Complete(got + Flatten(more))
                        else AfterReads(e, got + Flatten(more))
    decreases |e.blocks| - i
  {
    var more := ReadBlocks(e.blocks[i..]);
    if i == |e.blocks| || e.blocks[i] == [] {
      assert got + Flatten(more) == got;
    } else {
      assert e.blocks[i..][1..] == e.blocks[i + 1..];
      var next := got + e.blocks[i];
      var rest := Flatten(ReadBlocks(e.blocks[i + 1..]));
      assert more[1..] == ReadBlocks(e.blocks[i + 1..]);
      assert got + Flatten(more) == next + rest;
      if !WriteFails(e, i) && !TooMuch(pin, next) {
        LoopEnds(pin, e, total, i + 1, next, SetPart(d, Some(next)), Report(progress, |next|, total));
      }
    }
  }

  lemma TransferEnds(pin: Pin, e: Env, d: Disk)
    requires d.files.part == Some([]) && Total(pin, e).Some?
    ensures var end := ReadFrom(pin, e, Total(pin, e).value, 0, [], d, []).end;
            && (end == Escaped && e.closes <==> Escapes(pin, e))
            && (end.Complete? <==> Sound(pin, e) && AtEnd(e))
            && (end.Complete? ==> end.bytes == Received(e))
  {
    assert e.blocks[0..] == e.blocks;
    assert [] + Received(e) == Received(e);
    LoopEnds(pin, e, Total(pin, e).value, 0, [], d, []);
  }

  // ---- the result and every report, from the first block that stops the loop --

  /** Block `i` is written, and with it no more than the pinned size has come. */
  predicate Fine(pin: Pin, e: Env, i: nat)
    requires i < |e.blocks|
  {
    && !(e.writeFails.Some? && e.writeFails.value.0 == i)
    && !(pin.size.Some? && |Flatten(e.blocks[..i + 1])| > pin.size.value)
  }

  /** The loop takes `n` blocks: all fine, and then the stream is over, or the next
      one is empty or not fine. */
  predicate Stops(pin: Pin, e: Env, n: nat) {
    && n <= |e.blocks| && (forall i :: 0 <= i < n ==> e.blocks[i] != [] && Fine(pin, e, i))
    && (n < |e.blocks| ==> e.blocks[n] == [] || !Fine(pin, e, n))
  }

  /** The `i`-th report is the share of `total` that has come by then, in whole percent. */
  predicate Shares(e: Env, total: int, n: nat, reports: seq<nat>)
    requires n <= |e.blocks|
  {
    if total <= 0 then reports == []
    else
      && |reports| == n
      && forall i :: 0 <= i < n ==>
           var share := 100 * |Flatten(e.blocks[..i + 1])| / total;
           reports[i] == if share > 100 then 100 else share
  }

  predicate LoopStopsAt(e: Env, n: nat, end: LoopEnd)
    requires n <= |e.blocks|
  {
    var got := Flatten(e.blocks[..n]);
    if n < |e.blocks| && e.blocks[n] != []
    then end == if e.writeFails.Some? && e.writeFails.value.0 == n then Handled else Oversized
    else if n < |e.blocks| || e.ending == EndOfStream then end == Complete(got)
    else end == if e.ending == Raises(true) then Handled else Escaped
  }

  lemma FlattenOneMore(blocks: seq<Bytes>, i: nat)
    requires i < |blocks|
    ensures Flatten(blocks[..i + 1]) == Flatten(blocks[..i]) + blocks[i]
  {
    assert blocks[..i + 1] == blocks[..i] + [blocks[i]];
    FlattenSnoc(blocks[..i], blocks[i]);
  }

  lemma {:induction false} LoopStops(pin: Pin, e: Env, total: int, i: nat, got: Bytes, d: Disk, progress: seq<nat>, n: nat)
    requires Stops(pin, e, n) && i <= n && got == Flatten(e.blocks[..i]) && Shares(e, total, i, progress)
    ensures var loop := ReadFrom(pin, e, total, i, got, d, progress);
            LoopStopsAt(e, n, loop.end) && Shares(e, total, n, loop.progress)
    decreases n - i
  {
    if i < |e.blocks| {
      FlattenOneMore(e.blocks, i);
    }
    if i < n {
      var more := got + e.blocks[i];
      LoopStops(pin, e, total, i + 1, more, SetPart(d, Some(more)), Report(progress, |more|, total), n);
    }
  }

  lemma {:induction false} TheStop(pin: Pin, e: Env, i: nat) returns (n: nat)
    requires i <= |e.blocks| && forall j :: 0 <= j < i ==> e.blocks[j] != [] && Fine(pin, e, j)
    ensures Stops(pin, e, n)
    decreases |e.blocks| - i
  {
    if i < |e.blocks| && e.blocks[i] != [] && Fine(pin, e, i) {
      n := TheStop(pin, e, i + 1);
    } else {
      n := i;
    }
  }

  /** Raising `reason` takes removing the partial file first. */
  function Refused(e: Env, reason: Reason): Result {
    if e.discards then DownloadError(reason) else OtherError
  }

  /** What a download that stops after `n` blocks comes to. */
  function ComesTo(pin: Pin, e: Env, n: nat): Result
    requires n <= |e.blocks|
  {
    var got := Flatten(e.blocks[..n]);
    var bad := n < |e.blocks| && e.blocks[n] != [];
    if (pin.size.None? || pin.size.value == 0) && e.header == Malformed then Refused(e, NotFinished)
    else if bad && e.closes && !(e.writeFails.Some? && e.writeFails.value.0 == n) then Refused(e, TooBig)
    else if bad || !e.closes then Refused(e, NotFinished)
    else if n == |e.blocks| && e.ending == Raises(true) then Refused(e, NotFinished)
    else if n == |e.blocks| && e.ending == Raises(false) then OtherError
    else if pin.size.Some? && pin.size.value != |got| then Refused(e, WrongSize)
    else if pin.hash(got) != Lower(pin.sha256) then Refused(e, WrongHash)
    else if e.renames then Done
    else DownloadError(NotPlaced)
  }

  /** The result of every attempt, and its reports. */
  lemma AttemptExactly(pin: Pin, e: Env, d: Disk, n: nat)
    requires Stops(pin, e, n)
    ensures !e.https ==> Fetch(pin, e, d).result == DownloadError(NotHttps)
    ensures e.https && !e.prepares ==> Fetch(pin, e, d).result == OtherError
    ensures e.https && e.prepares && e.answers == NoAnswer(false) ==> Fetch(pin, e, d).result == OtherError
    ensures e.https && e.prepares && (e.answers == NoAnswer(true) || (e.answers == Answers && !e.opens)) ==>
              Fetch(pin, e, d).result == DownloadError(NotFinished)
    ensures Starts(e) ==> Fetch(pin, e, d).result == ComesTo(pin, e, n)
    ensures !Starts(e) ==> Fetch(pin, e, d).progress == []
    ensures Starts(e) ==>
              match pin.size
              case Some(size) =>
                (size > 0 ==> Shares(e, size, n, Fetch(pin, e, d).progress))
                && (size == 0 && e.header.Length? ==> Shares(e, e.header.n, n, Fetch(pin, e, d).progress))
              case None => e.header.Length? ==> Shares(e, e.header.n, n, Fetch(pin, e, d).progress)
    ensures (pin.size.None? || pin.size.value == 0) && !e.header.Length? ==> Fetch(pin, e, d).progress == []
  {
    var empty := SetPart(SetPart(d, None), Some([]));
    var total := Total(pin, e);
    if Starts(e) && total.Some? {
      LoopStops(pin, e, total.value, 0, [], empty, [], n);
      LoopKeepsDest(pin, e, total.value, 0, [], empty, []);
      ConcludesAs(pin, e, empty, n);
    } else if Starts(e) {
      assert (pin.size.None? || pin.size.value == 0) && e.header == Malformed;
      assert Fetch(pin, e, d) == Discard(e, empty, [], NotFinished);
    }
  }

  lemma ConcludesAs(pin: Pin, e: Env, d: Disk, n: nat)
    requires Stops(pin, e, n) && d.files.part.Some? && Total(pin, e).Some?
    requires var loop := ReadFrom(pin, e, Total(pin, e).value, 0, [], d, []);
             LoopStopsAt(e, n, loop.end) && loop.disk.files.part.Some?
    ensures Transfer(pin, e, d).result == ComesTo(pin, e, n)
    ensures Transfer(pin, e, d).progress == ReadFrom(pin, e, Total(pin, e).value, 0, [], d, []).progress
  {
  }

  /** A download that reaches its total has reported 100 when it ends. */
  lemma WholeIsHundred(e: Env, total: int, n: nat, reports: seq<nat>)
    requires 0 < n <= |e.blocks| && total > 0 && Shares(e, total, n, reports)
    requires |Flatten(e.blocks[..n])| >= total
    ensures reports[n - 1] == 100
  {
    assert Flatten(e.blocks[..n - 1 + 1]) == Flatten(e.blocks[..n]);
    DivMonotone(100 * total, 100 * |Flatten(e.blocks[..n])|, total);
  }

  /** A placed file of a pinned size, not zero, was reported to 100. */
  lemma PlacedIsHundred(pin: Pin, e: Env, d: Disk)
    requires pin.size.Some? && pin.size.value > 0 && Fetch(pin, e, d).result == Done
    ensures var ps := Fetch(pin, e, d).progress; ps != [] && ps[|ps| - 1] == 100
  {
    var n := TheStop(pin, e, 0);
    AttemptExactly(pin, e, d, n);
    assert n > 0;
    WholeIsHundred(e, pin.size.value, n, Fetch(pin, e, d).progress);
  }

  /** The file is put in place if and only if the attempt starts, the whole stream
      is written, its bytes are the pinned ones and the rename goes through. */
  lemma PlacedExactly(pin: Pin, e: Env, d: Disk)
    ensures Fetch(pin, e, d).result == Done <==> Starts(e) && Verified(pin, e) && e.renames
    ensures Fetch(pin, e, d).result == Done ==> Fetch(pin, e, d).disk.files == Files(Some(Received(e)), None)
  {
    var empty := SetPart(SetPart(d, None), Some([]));
    if Starts(e) && Total(pin, e).Some? {
      TransferEnds(pin, e, empty);
      LoopOk(pin, d.files.dest, e, Total(pin, e).value, 0, [], Disk(empty.files, [empty.files]), []);
      LoopIgnoresTrail(pin, e, Total(pin, e).value, 0, [], empty, Disk(empty.files, [empty.files]), []);
    }
  }

  lemma {:induction false} LoopIgnoresTrail(
      pin: Pin, e: Env, total: int, i: nat, got: Bytes, d1: Disk, d2: Disk, progress: seq<nat>)
    requires i <= |e.blocks| && d1.files == d2.files
    ensures ReadFrom(pin, e, total, i, got, d1, progress).disk.files
         == ReadFrom(pin, e, total, i, got, d2, progress).disk.files
    ensures ReadFrom(pin, e, total, i, got, d1, progress).end == ReadFrom(pin, e, total, i, got, d2, progress).end
    decreases |e.blocks| - i
  {
    if i < |e.blocks| && e.blocks[i] != [] && !WriteFails(e, i) {
      var more := got + e.blocks[i];
      if !TooMuch(pin, more) {
        LoopIgnoresTrail(pin, e, total, i + 1, more, SetPart(d1, Some(more)), SetPart(d2, Some(more)),
                         Report(progress, |more|, total));
      }
    }
  }

  /** A failed attempt keeps what is promised of it: no old partial file beside a
      refused address, directory and connection errors of the kinds that are
      caught, no read error of another kind, and every clean-up going through. */
  predicate FailsCleanly(pin: Pin, e: Env, files: Files) {
    if !e.https then files.part == None
    else if !e.prepares then false
    else if e.answers.NoAnswer? then e.answers.handled
    else if !e.opens then true
    else if Escapes(pin, e) then false
    else if Verified(pin, e) then e.unlinksAfter
    else e.discards
  }

  /** Every failed attempt leaves the destination as it was. It is reported as a
      download error and leaves no partial file exactly when it fails cleanly. */
  lemma FailureExactly(pin: Pin, e: Env, d: Disk)
    ensures Fetch(pin, e, d).result != Done ==>
              && Fetch(pin, e, d).disk.files.dest == d.files.dest
              && (Fetch(pin, e, d).result.DownloadError? && Fetch(pin, e, d).disk.files.part == None
                  <==> FailsCleanly(pin, e, d.files))
  {
    PlacedExactly(pin, e, d);
    var empty := SetPart(SetPart(d, None), Some([]));
    if Starts(e) && Total(pin, e).Some? {
      TransferEnds(pin, e, empty);
      LoopKeepsDest(pin, e, Total(pin, e).value, 0, [], empty, []);
    }
  }

  // ---- three failures that are not clean ---------------------------------

  const Smooth := Env(true, true, Answers, true, Missing, [], EndOfStream, None, true, true, true, true)

  const Nothing := Pin((_: Bytes) => "", "", None)

  /** Refusing an address that is not https leaves an old partial file. */
  lemma RefusalKeepsOldPart(stale: Bytes)
    ensures var before := Files(None, Some(stale));
            var o := Fetch(Nothing, Smooth.(https := false), Disk(before, [before]));
            o.result == DownloadError(NotHttps) && o.disk.files.part == Some(stale)
  {
  }

  /** A read error that is neither an OSError nor a ValueError is no download error,
      and leaves the partial file. */
  lemma EscapedReadLeavesPart()
    ensures var before := Files(None, None);
            var o := Fetch(Nothing, Smooth.(ending := Raises(false)), Disk(before, [before]));
            o.result == OtherError && o.disk.files.part == Some([])
  {
  }

  /** So does a failed rename whose own clean-up fails. */
  lemma FailedRenameLeavesPart()
    ensures var before := Files(None, None);
            var o := Fetch(Nothing, Smooth.(renames := false, unlinksAfter := false), Disk(before, [before]));
            o.result == DownloadError(NotPlaced) && o.disk.files.part == Some([])
  {
    assert Lower("") == "";
  }

  // ---------------------------------------------------------------------
  // Progress
  // ---------------------------------------------------------------------

  lemma PercentMonotone(a: nat, b: nat, total: int)
    requires total > 0 && a <= b
    ensures Percent(a, total) <= Percent(b, total) <= 100
  {
    DivMonotone(a * 100, b * 100, total);
  }

  lemma DivMonotone(a: nat, b: nat, d: int)
    requires d > 0 && a <= b
    ensures a / d <= b / d
  {
    var k := a / d - b / d;
    assert a == a / d * d + a % d && b == b / d * d + b % d;
    assert k * d == a / d * d - b / d * d;
    AtLeastOnce(k, d);
  }

  lemma AtLeastOnce(k: int, d: int)
    requires d > 0
    ensures k >= 1 ==> k * d >= d
  {
    if k >= 1 {
      assert k * d == (k - 1) * d + d;
    }
  }

  /** Reports that never go back, none above `top`. */
  ghost predicate Climbs(ps: seq<nat>, top: nat) {
    && (forall j :: 0 <= j < |ps| ==> ps[j] <= top)
    && (forall j, k :: 0 <= j < k < |ps| ==> ps[j] <= ps[k])
  }

  lemma ClimbsFurther(ps: seq<nat>, top: nat, p: nat)
    requires Climbs(ps, top) && top <= p
    ensures Climbs(ps + [p], p)
  {
  }

  lemma {:induction false} ProgressFrom(
      pin: Pin, e: Env, total: int, i: nat, got: Bytes, d: Disk, progress: seq<nat>)
    requires i <= |e.blocks| && (if total > 0 then Climbs(progress, Percent(|got|, total)) else progress == [])
    ensures Climbs(ReadFrom(pin, e, total, i, got, d, progress).progress, 100)
    decreases |e.blocks| - i
  {
    if total > 0 {
      PercentMonotone(|got|, |got|, total);
    }
    if i < |e.blocks| && e.blocks[i] != [] && !WriteFails(e, i) {
      var more := got + e.blocks[i];
      if !TooMuch(pin, more) {
        if total > 0 {
          PercentMonotone(|got|, |more|, total);
          ClimbsFurther(progress, Percent(|got|, total), Percent(|more|, total));
        }
        ProgressFrom(pin, e, total, i + 1, more, SetPart(d, Some(more)), Report(progress, |more|, total));
      }
    }
  }

  /** Progress reports never go back and stay within 0 to 100. */
  lemma ProgressIsMonotone(pin: Pin, e: Env, d: Disk)
    ensures Climbs(Fetch(pin, e, d).progress, 100)
  {
    var empty := SetPart(SetPart(d, None), Some([]));
    if Total(pin, e).Some? {
      ProgressFrom(pin, e, Total(pin, e).value, 0, [], empty, []);
    }
  }
}
