/**
 The file thread (full_custom/file_thread.c:15-95): blocks come from the pool lowest order first, are
 written in order, put back while the expected one is missing, and after too many misses a new file starts.
 */
module Writer {
  import opened DataFormats
  import opened Recording

  datatype File = File(header: Header, orders: seq<int>, data: seq<byte>)

  /** `header` is the shared fileBuffStruct, whose packetStart a new file updates. */
  datatype State = State(lastOrd: int, nMisses: nat, header: Header, files: seq<File>)

  datatype Outcome = Wrote | Discarded | PutBack

  datatype Result = Result(s: State, outcome: Outcome)

  function Init(h: Header): State {
    State(0, 0, h, [])
  }

  function OpenFile(s: State): State {
    s.(files := s.files + [File(s.header, [], [])])
  }

  function Append(s: State, order: int, d: seq<byte>): State
    requires s.files != []
  {
    var n := |s.files| - 1;
    var f := s.files[n];
    s.(lastOrd := order, files := s.files[n := f.(orders := f.orders + [order], data := f.data + d)])
  }

  /** One pass of the loop with a fetched block. */
  function Handle(s: State, order: nat, d: seq<byte>): Result
    requires order > 0 && (s.lastOrd != 0 ==> s.files != [])
  {
    if s.lastOrd + 1 != order then
      if order <= s.lastOrd then Result(s, Discarded)
      else if s.lastOrd != 0 && s.nMisses + 1 > MAX_ORDER_MISSES then
        var start := order * TIME_INT_PER_BUFFER + s.header.packetStart - 1;
        var s1 := s.(nMisses := 0, header := s.header.(packetStart := start));
        Result(Append(OpenFile(s1), order, d), Wrote)
      else Result(s.(nMisses := s.nMisses + 1), PutBack)
    else
      var s1 := s.(nMisses := 0);
      var s2 := if s.lastOrd == 0 then OpenFile(s1) else s1;
      Result(Append(s2, order, d), Wrote)
  }

  // What every pass keeps.

  ghost predicate Consecutive(orders: seq<int>) {
    orders != [] && forall i :: 0 <= i < |orders| ==> orders[i] == orders[0] + i
  }

  function LastOf(f: File): int
    requires f.orders != []
  {
    f.orders[|f.orders| - 1]
  }

  /** Each file holds consecutive orders, the first starts at 1, and each next file begins after a gap. */
  ghost predicate Chain(files: seq<File>) {
    && (forall f :: 0 <= f < |files| ==> Consecutive(files[f].orders))
    && (files != [] ==> files[0].orders[0] == 1)
    && (forall f :: 0 < f < |files| ==> LastOf(files[f - 1]) + 1 < files[f].orders[0])
  }

  ghost predicate FilesOk(s: State) {
    && s.lastOrd >= 0 && (s.lastOrd == 0 <==> s.files == [])
    && Chain(s.files)
    && (s.files != [] ==> LastOf(s.files[|s.files| - 1]) == s.lastOrd)
    && (s.lastOrd > 0 ==> s.nMisses <= MAX_ORDER_MISSES)
  }

  function Extended(files: seq<File>, order: int, d: seq<byte>): seq<File>
    requires files != []
  {
    var n := |files| - 1;
    files[n := files[n].(orders := files[n].orders + [order], data := files[n].data + d)]
  }

  lemma ChainExtends(files: seq<File>, order: int, d: seq<byte>)
    requires files != [] && Chain(files) && order == LastOf(files[|files| - 1]) + 1
    ensures Chain(Extended(files, order, d)) && LastOf(Extended(files, order, d)[|files| - 1]) == order
  {
    var files' := Extended(files, order, d);
    var n := |files| - 1;
    assert Consecutive(files[n].orders);
    assert Consecutive(files'[n].orders);
    assert files'[n].orders[0] == files[n].orders[0];
    assert forall f :: 0 <= f < n ==> files'[f] == files[f];
  }

  lemma ChainStarts(files: seq<File>, h: Header, order: int, d: seq<byte>)
    requires Chain(files)
    requires if files == [] then order == 1 else LastOf(files[|files| - 1]) + 1 < order
    ensures Chain(files + [File(h, [order], d)])
  {
    var files' := files + [File(h, [order], d)];
    assert forall f :: 0 <= f < |files| ==> files'[f] == files[f];
    assert Consecutive(files'[|files|].orders);
  }

  lemma HandleFiles(s: State, order: nat, d: seq<byte>)
    requires FilesOk(s) && order > 0
    ensures FilesOk(Handle(s, order, d).s)
  {
    var r := Handle(s, order, d);
    if r.outcome == Wrote {
      if s.lastOrd + 1 == order && s.lastOrd > 0 {
        ChainExtends(s.files, order, d);
        assert r.s.files == Extended(s.files, order, d);
      } else {
        var h := r.s.header;
        ChainStarts(s.files, h, order, d);
        assert r.s.files == s.files + [File(h, [order], d)] by {
          assert [] + [order] == [order] && [] + d == d;
        }
      }
    }
  }

  /** The files as they are when a block is appended to the last of them. */
  function Target(s: State, order: nat, d: seq<byte>): seq<File>
    requires order > 0 && (s.lastOrd != 0 ==> s.files != [])
  {
    if s.lastOrd + 1 == order && s.lastOrd != 0 then s.files
    else s.files + [File(Handle(s, order, d).s.header, [], [])]
  }

  lemma WroteExtends(s: State, order: nat, d: seq<byte>)
    requires order > 0 && (s.lastOrd != 0 ==> s.files != [])
    ensures var r := Handle(s, order, d);
            if r.outcome == Wrote
            then Target(s, order, d) != [] && r.s.files == Extended(Target(s, order, d), order, d)
            else r.s.files == s.files
  {
  }

  /** All orders written, file after file. */
  function Written(files: seq<File>): seq<int> {
    if files == [] then [] else Written(files[..|files| - 1]) + files[|files| - 1].orders
  }

  ghost predicate Increasing(xs: seq<int>) {
    forall i, j :: 0 <= i < j < |xs| ==> xs[i] < xs[j]
  }

  /** A block is written at most once, at the end, and only above everything written before. */
  lemma HandleWritten(s: State, order: nat, d: seq<byte>)
    requires FilesOk(s) && order > 0
    ensures var r := Handle(s, order, d);
            && Written(r.s.files) == (if r.outcome == Wrote then Written(s.files) + [order] else Written(s.files))
            && (r.outcome == Wrote ==> order > s.lastOrd && r.s.lastOrd == order)
            && (r.outcome != Wrote ==> r.s.lastOrd == s.lastOrd)
            && (r.outcome == Discarded <==> order <= s.lastOrd)
            && (r.outcome == Wrote && s.lastOrd == 0 ==> order == 1)
  {
    var r := Handle(s, order, d);
    if r.outcome == Wrote {
      if |r.s.files| > |s.files| {
        NewWritten(s.files, r.s.files);
      } else {
        ExtendedWritten(s.files, order, d);
      }
    }
  }

  lemma NewWritten(files: seq<File>, files': seq<File>)
    requires |files'| == |files| + 1 && files'[..|files|] == files
    ensures Written(files') == Written(files) + files'[|files|].orders
  {
  }

  lemma ExtendedWritten(files: seq<File>, order: int, d: seq<byte>)
    requires files != []
    ensures Written(Extended(files, order, d)) == Written(files) + [order]
  {
    var n := |files| - 1;
    assert Extended(files, order, d)[..n] == files[..n];
    assert Written(files[..n]) + (files[n].orders + [order]) == Written(files) + [order];
  }

  // Whole runs, over any sequence of fetched blocks.

  datatype Block = Block(order: nat, d: seq<byte>)

  ghost predicate Positive(ins: seq<Block>) {
    forall i :: 0 <= i < |ins| ==> ins[i].order > 0
  }

  ghost function Run(h: Header, ins: seq<Block>): (s: State)
    requires Positive(ins)
    ensures FilesOk(s)
  {
    if ins == [] then Init(h)
    else
      var s := Run(h, ins[..|ins| - 1]);
      HandleFiles(s, ins[|ins| - 1].order, ins[|ins| - 1].d);
      Handle(s, ins[|ins| - 1].order, ins[|ins| - 1].d).s
  }

  ghost function LastOutcome(h: Header, ins: seq<Block>): Outcome
    requires Positive(ins) && ins != []
  {
    Handle(Run(h, ins[..|ins| - 1]), ins[|ins| - 1].order, ins[|ins| - 1].d).outcome
  }

  /** Strictly increasing, from 1 up to lastOrd. */
  ghost predicate Climbs(ws: seq<int>, lastOrd: int) {
    && Increasing(ws)
    && (ws == [] <==> lastOrd == 0)
    && (ws != [] ==> ws[0] == 1 && ws[|ws| - 1] == lastOrd)
  }

  lemma ClimbsOn(ws: seq<int>, lastOrd: int, order: int)
    requires Climbs(ws, lastOrd) && 0 <= lastOrd < order && (lastOrd == 0 ==> order == 1)
    ensures Climbs(ws + [order], order)
  {
    assert forall i :: 0 <= i < |ws| ==> ws[i] <= lastOrd;
  }

  /**
   Over any run the written orders strictly increase, start at 1 and end at lastOrd, and each file is consecutive.
   */
  lemma {:induction false} WriterSafety(h: Header, ins: seq<Block>)
    requires Positive(ins)
    ensures FilesOk(Run(h, ins))
    ensures Climbs(Written(Run(h, ins).files), Run(h, ins).lastOrd)
  {
    if ins != [] {
      var init, b := ins[..|ins| - 1], ins[|ins| - 1];
      var s := Run(h, init);
      WriterSafety(h, init);
      HandleWritten(s, b.order, b.d);
      if Handle(s, b.order, b.d).outcome == Wrote {
        ClimbsOn(Written(s.files), s.lastOrd, b.order);
      }
    }
  }

  lemma StaysSkipped(s: State, b: Block, order: nat)
    requires FilesOk(s) && b.order > 0 && 0 < order <= s.lastOrd && order !in Written(s.files)
    ensures var r := Handle(s, b.order, b.d);
            && order !in Written(r.s.files) && r.s.lastOrd >= order
            && (b.order == order ==> r.outcome == Discarded)
  {
    HandleWritten(s, b.order, b.d);
  }

  /** An order passed over is never written later, whatever arrives: when it comes it is discarded. */
  lemma {:induction false} SkippedIsDiscarded(h: Header, ins: seq<Block>, n: nat, order: nat)
    requires Positive(ins) && n <= |ins| && 0 < order <= Run(h, ins[..n]).lastOrd
    requires order !in Written(Run(h, ins[..n]).files)
    ensures order !in Written(Run(h, ins).files) && Run(h, ins).lastOrd >= order
    ensures |ins| > n && ins[|ins| - 1].order == order ==> LastOutcome(h, ins) == Discarded
    decreases |ins|
  {
    if |ins| == n {
      assert ins[..n] == ins;
    } else {
      var init, b := ins[..|ins| - 1], ins[|ins| - 1];
      assert init[..n] == ins[..n];
      SkippedIsDiscarded(h, init, n, order);
      StaysSkipped(Run(h, init), b, order);
    }
  }

  /** Put-backs since the last write. */
  ghost function PutBacks(h: Header, ins: seq<Block>): nat
    requires Positive(ins)
  {
    if ins == [] then 0
    else match LastOutcome(h, ins)
         case Wrote => 0
         case Discarded => PutBacks(h, ins[..|ins| - 1])
         case PutBack => PutBacks(h, ins[..|ins| - 1]) + 1
  }

  /** After the first write at most MAX_ORDER_MISSES put-backs happen before the next. */
  lemma {:induction false} BoundedPutBacks(h: Header, ins: seq<Block>)
    requires Positive(ins)
    ensures Run(h, ins).nMisses == PutBacks(h, ins)
    ensures Run(h, ins).lastOrd > 0 ==> PutBacks(h, ins) <= MAX_ORDER_MISSES
  {
    if ins != [] {
      BoundedPutBacks(h, ins[..|ins| - 1]);
    }
  }

  /** What a block's order asks for, given what has been written and how often blocks have been put back since. */
  ghost predicate Rule(was: seq<File>, lastOrd: int, putBacks: nat, b: Block, now: seq<File>, outcome: Outcome) {
    if b.order <= lastOrd then outcome == Discarded && now == was
    else if b.order == lastOrd + 1 then
      // the next block goes into the current file, and block 1 into the first
      outcome == Wrote && if was == [] then IsNewFile(was, b, now) else now == Extended(was, b.order, b.d)
    else if lastOrd > 0 && putBacks == MAX_ORDER_MISSES then
      // a gap is given up, and a new file begun, after that many put-backs
      outcome == Wrote && IsNewFile(was, b, now)
    else outcome == PutBack && now == was
  }

  /** One more file, with this block alone. */
  ghost predicate IsNewFile(was: seq<File>, b: Block, now: seq<File>) {
    |now| == |was| + 1 && now[..|was|] == was && now[|was|].orders == [b.order] && now[|was|].data == b.d
  }

  lemma HandleRule(s: State, b: Block)
    requires FilesOk(s) && b.order > 0
    ensures var r := Handle(s, b.order, b.d);
            Rule(s.files, s.lastOrd, s.nMisses, b, r.s.files, r.outcome)
  {
    assert [] + [b.order] == [b.order] && [] + b.d == b.d;
  }

  /** Over every run: when a block is written, where, when it is put back and when it is discarded. */
  lemma OutcomeIff(h: Header, ins: seq<Block>)
    requires Positive(ins) && ins != []
    ensures var init := ins[..|ins| - 1];
            Rule(Run(h, init).files, Run(h, init).lastOrd, PutBacks(h, init), ins[|ins| - 1], Run(h, ins).files,
                 LastOutcome(h, ins))
  {
    var init := ins[..|ins| - 1];
    BoundedPutBacks(h, init);
    HandleRule(Run(h, init), ins[|ins| - 1]);
  }

  // The packet number in each file's header.

  /** The packet number at which a file's data begin. */
  function TrueStart(h: Header, f: File): int
    requires f.orders != []
  {
    h.packetStart + (f.orders[0] - 1) * TIME_INT_PER_BUFFER
  }

  /** File 0's header names its first packet; the update for later files always overshoots. */
  lemma {:induction false} HeaderCorrectOnlyInFirstFile(h: Header, ins: seq<Block>, f: nat)
    requires Positive(ins) && f < |Run(h, ins).files|
    ensures Run(h, ins).files[f].header.packetStart == TrueStart(h, Run(h, ins).files[f]) <==> f == 0
    ensures f == 0 ==> Run(h, ins).files[0].header == h
  {
    HeaderStarts(h, ins);
  }

  ghost predicate Begun(files: seq<File>) {
    forall g :: 0 <= g < |files| ==> files[g].orders != [] && files[g].orders[0] >= 1
  }

  /** The packet number in the header of file f: each new file adds 128 times its first order, less one. */
  ghost function StartIn(h: Header, files: seq<File>, f: nat): nat
    requires f < |files| && Begun(files)
  {
    if f == 0 then h.packetStart
    else StartIn(h, files, f - 1) + files[f].orders[0] * TIME_INT_PER_BUFFER - 1
  }

  lemma {:induction false} StartInSame(h: Header, files: seq<File>, files': seq<File>, f: nat)
    requires f < |files| && f < |files'| && Begun(files) && Begun(files')
    requires forall g :: 0 <= g <= f ==> files[g].orders[0] == files'[g].orders[0]
    ensures StartIn(h, files, f) == StartIn(h, files', f)
  {
    if f > 0 {
      StartInSame(h, files, files', f - 1);
    }
  }

  /** Each file has its own packet number in the header, and `now` is the header that the last one was written with. */
  ghost predicate HeadersAre(h: Header, files: seq<File>, now: Header) {
    && Begun(files)
    && (forall f: nat :: f < |files| ==> files[f].header == h.(packetStart := StartIn(h, files, f)))
    && now == if files == [] then h else h.(packetStart := StartIn(h, files, |files| - 1))
  }

  lemma ExtendedHeaders(h: Header, files: seq<File>, now: Header, order: int, d: seq<byte>)
    requires files != [] && HeadersAre(h, files, now)
    ensures HeadersAre(h, Extended(files, order, d), now)
  {
    var files' := Extended(files, order, d);
    forall f: nat | f < |files| ensures StartIn(h, files', f) == StartIn(h, files, f) {
      StartInSame(h, files, files', f);
    }
  }

  lemma NewHeaders(h: Header, files: seq<File>, now: Header, file: File)
    requires HeadersAre(h, files, now) && file.orders != [] && file.orders[0] >= 1
    requires files == [] ==> file.header == h
    requires files != [] ==>
      file.header == now.(packetStart := now.packetStart + file.orders[0] * TIME_INT_PER_BUFFER - 1)
    ensures HeadersAre(h, files + [file], file.header)
  {
    var files' := files + [file];
    forall f: nat | f < |files| ensures StartIn(h, files', f) == StartIn(h, files, f) {
      StartInSame(h, files, files', f);
    }
  }

  lemma HandleHeaders(h: Header, s: State, b: Block, r: Result)
    requires FilesOk(s) && HeadersAre(h, s.files, s.header) && b.order > 0 && r == Handle(s, b.order, b.d)
    ensures HeadersAre(h, r.s.files, r.s.header)
  {
    if r.outcome == Wrote {
      if b.order == s.lastOrd + 1 && s.files != [] {
        ExtendedHeaders(h, s.files, s.header, b.order, b.d);
        assert r.s.files == Extended(s.files, b.order, b.d);
      } else {
        var f := File(r.s.header, [b.order], b.d);
        assert r.s.files == s.files + [f] by { assert [] + [b.order] == [b.order] && [] + b.d == b.d; }
        NewHeaders(h, s.files, s.header, f);
      }
    }
  }

  /** The header of every file of every run. */
  lemma {:induction false} HeaderFormula(h: Header, ins: seq<Block>)
    requires Positive(ins)
    ensures HeadersAre(h, Run(h, ins).files, Run(h, ins).header)
  {
    if ins != [] {
      var init, b := ins[..|ins| - 1], ins[|ins| - 1];
      HeaderFormula(h, init);
      HandleHeaders(h, Run(h, init), b, Handle(Run(h, init), b.order, b.d));
    }
  }

  /** Block 1 arrives, and then block 3 again and again. */
  ghost predicate TwoIsMissing(ins: seq<Block>) {
    && Positive(ins) && |ins| == MAX_ORDER_MISSES + 2
    && ins[0].order == 1 && forall i :: 1 <= i < |ins| ==> ins[i].order == 3
  }

  /** Only block 1 is written, and a later one has been put back n times. */
  ghost predicate Waiting(h: Header, s: State, n: nat) {
    s.lastOrd == 1 && s.nMisses == n && s.header == h && |s.files| == 1 && s.files[0].orders == [1]
  }

  lemma OneIsWritten(h: Header, b: Block)
    requires b.order == 1
    ensures Waiting(h, Handle(Init(h), b.order, b.d).s, 0)
  {
    assert [] + [1] == [1];
  }

  lemma LastStep(h: Header, ins: seq<Block>, before: State, s: State)
    requires Positive(ins) && ins != [] && before == Run(h, ins[..|ins| - 1]) && s == Run(h, ins)
    ensures s == Handle(before, ins[|ins| - 1].order, ins[|ins| - 1].d).s
  {
  }

  lemma MissesAgain(h: Header, s: State, b: Block, n: nat)
    requires Waiting(h, s, n) && n < MAX_ORDER_MISSES && b.order == 3
    ensures Waiting(h, Handle(s, b.order, b.d).s, n + 1)
  {
  }

  lemma {:induction false} WaitsForTwo(h: Header, ins: seq<Block>, s: State)
    requires Positive(ins) && 1 <= |ins| <= MAX_ORDER_MISSES + 1 && s == Run(h, ins)
    requires ins[0].order == 1 && forall i :: 1 <= i < |ins| ==> ins[i].order == 3
    ensures Waiting(h, s, |ins| - 1)
    decreases |ins|
  {
    var init := ins[..|ins| - 1];
    var before := Run(h, init);
    LastStep(h, ins, before, s);
    if |ins| > 1 {
      WaitsForTwo(h, init, before);
      MissesAgain(h, before, ins[|ins| - 1], |ins| - 2);
    } else {
      OneIsWritten(h, ins[0]);
    }
  }

  lemma GivesUp(h: Header, s: State, b: Block)
    requires Waiting(h, s, MAX_ORDER_MISSES) && b.order == 3
    ensures var s' := Handle(s, b.order, b.d).s;
            && |s'.files| == 2 && s'.files[0].orders == [1] && s'.files[1].orders == [3]
            && s'.files[1].header.packetStart == TrueStart(h, s'.files[1]) + TIME_INT_PER_BUFFER - 1
  {
    assert [] + [3] == [3];
  }

  /** The 201st time a second file is begun with block 3, and its header names a packet number after its first. */
  lemma SecondFileStartsLate(h: Header, ins: seq<Block>, s: State)
    requires TwoIsMissing(ins) && s == Run(h, ins)
    ensures |s.files| == 2 && s.files[0].orders == [1] && s.files[1].orders == [3]
    ensures s.files[1].header.packetStart == TrueStart(h, s.files[1]) + TIME_INT_PER_BUFFER - 1
  {
    var before := Run(h, ins[..|ins| - 1]);
    LastStep(h, ins, before, s);
    TwoHundredMisses(h, ins, before);
    GivesUp(h, before, ins[|ins| - 1]);
  }

  lemma TwoHundredMisses(h: Header, ins: seq<Block>, before: State)
    requires TwoIsMissing(ins) && before == Run(h, ins[..|ins| - 1])
    ensures Waiting(h, before, MAX_ORDER_MISSES)
  {
    WaitsForTwo(h, ins[..|ins| - 1], before);
  }

  ghost predicate StartsOk(h: Header, s: State) {
    && s.header == h.(packetStart := s.header.packetStart) && s.header.packetStart >= h.packetStart
    && (|s.files| <= 1 ==> s.header == h)
    && (forall f :: 0 <= f < |s.files| && s.files[f].orders != [] ==>
          if f == 0 then s.files[f].header == h && s.files[f].orders[0] == 1
          else s.files[f].header.packetStart > TrueStart(h, s.files[f]))
  }

  lemma {:induction false} HeaderStarts(h: Header, ins: seq<Block>)
    requires Positive(ins)
    ensures StartsOk(h, Run(h, ins))
  {
    if ins != [] {
      var init, b := ins[..|ins| - 1], ins[|ins| - 1];
      HeaderStarts(h, init);
      HandleStarts(h, Run(h, init), b.order, b.d);
    }
  }

  lemma HandleStarts(h: Header, s: State, order: nat, d: seq<byte>)
    requires FilesOk(s) && StartsOk(h, s) && order > 0
    ensures StartsOk(h, Handle(s, order, d).s)
  {
    var s' := Handle(s, order, d).s;
    forall f | 0 <= f < |s'.files| && s'.files[f].orders != []
      ensures if f == 0 then s'.files[f].header == h && s'.files[f].orders[0] == 1
              else s'.files[f].header.packetStart > TrueStart(h, s'.files[f])
    {
      if f < |s.files| {
        assert Consecutive(s.files[f].orders);
        assert s'.files[f].header == s.files[f].header && s'.files[f].orders[0] == s.files[f].orders[0];
      }
    }
  }

  /** The thread's variables, updated in place. */
  class FileWriter {
    var lastOrd: int
    var nMisses: nat
    var consecFile: nat
    var header: Header
    var files: seq<File>

    ghost predicate Valid()
      reads this
    {
      && lastOrd >= 0 && (lastOrd == 0 <==> files == [])
      && consecFile == if files == [] then 0 else |files| - 1
    }

    ghost function View(): State
      reads this
    {
      State(lastOrd, nMisses, header, files)
    }

    constructor (h: Header)
      ensures Valid() && View() == Init(h)
    {
      lastOrd, nMisses, consecFile, header, files := 0, 0, 0, h, [];
    }

    method HandleBlock(order: nat, d: seq<byte>) returns (outcome: Outcome)
      requires Valid() && order > 0
      modifies this
      ensures Valid() && Result(View(), outcome) == Handle(old(View()), order, d)
    {
      if lastOrd + 1 != order {
        if order <= lastOrd {
          return Discarded;
        }
        nMisses := nMisses + 1;
        if lastOrd != 0 && nMisses > MAX_ORDER_MISSES {
          nMisses := 0;
          consecFile := consecFile + 1;
          header := header.(packetStart := order * TIME_INT_PER_BUFFER + header.packetStart - 1);
          lastOrd := order - 1;
          files := files + [File(header, [], [])];
        } else {
          return PutBack;
        }
      } else {
        nMisses := 0;
      }
      if lastOrd == 0 {
        files := files + [File(header, [], [])];
      }
      lastOrd := order;
      var n := |files| - 1;
      files := files[n := files[n].(orders := files[n].orders + [order], data := files[n].data + d)];
      return Wrote;
    }
  }
}
