/**
 A single-writer seqlock as interleaved word-level steps under sequential consistency: the writer
 makes the version odd, performs its writes one word at a time and makes it even again; any number
 of readers sample the version, copy words one at a time as their program asks, and re-check it.
 The memory layout, the writes of an operation and the reading program are parameters.
 */
module Seqlock {
  import opened Options

  type Memory<A, W> = map<A, W>

  datatype Write<A, W> = Write(addr: A, value: W)

  /** A reading program sees what it has copied so far and names the next word, or stops. */
  datatype Config<!A(==), !W, !Op> = Config(
    plan: (Memory<A, W>, Op) -> seq<Write<A, W>>,
    next: seq<Write<A, W>> -> Option<A>,
    tries: nat,
    base: nat)

  datatype Writer<W, Op> =
    | Idle
    | Loaded(ver: nat, op: Op)
    | Busy(ver: nat, op: Op, done: nat)

  /** since and until count the commits seen when a read call starts and when it returns. */
  datatype Reader<A, W> =
    | Resting
    | Attempt(left: nat, since: nat)
    | Copying(left: nat, since: nat, v1: nat, log: seq<Write<A, W>>)
    | Failed
    | Succeeded(since: nat, until: nat, v1: nat, log: seq<Write<A, W>>)

  datatype State<A(==), W, Op> = State(
    mem: Memory<A, W>,
    ver: nat,
    writer: Writer<W, Op>,
    readers: seq<Reader<A, W>>,
    committed: seq<Memory<A, W>>,
    ops: seq<Op>)

  function Apply<A, W>(mem: Memory<A, W>, writes: seq<Write<A, W>>): Memory<A, W> {
    if writes == [] then mem
    else
      var last := writes[|writes| - 1];
      Apply(mem, writes[..|writes| - 1])[last.addr := last.value]
  }

  ghost predicate Init<A, W, Op>(cfg: Config<A, W, Op>, s: State<A, W, Op>) {
    && cfg.base % 2 == 0 && s.ver == cfg.base && s.writer == Idle
    && (forall i :: 0 <= i < |s.readers| ==> s.readers[i] == Resting)
    && s.committed == [s.mem] && s.ops == []
  }

  function Latest<A, W, Op>(s: State<A, W, Op>): Memory<A, W>
    requires s.committed != []
  {
    s.committed[|s.committed| - 1]
  }

  ghost predicate WriterStep<A, W, Op>(cfg: Config<A, W, Op>, s: State<A, W, Op>, s': State<A, W, Op>) {
    s.committed != [] &&
    match s.writer
    case Idle =>
      // load the version on entry to an operation
      s'.writer.Loaded? && s' == s.(writer := Loaded(s.ver, s'.writer.op))
    case Loaded(v, op) =>
      // publish the odd version
      s' == s.(ver := v + 1, writer := Busy(v, op, 0))
    case Busy(v, op, k) =>
      var writes := cfg.plan(Latest(s), op);
      if k < |writes| then
        s' == s.(mem := s.mem[writes[k].addr := writes[k].value], writer := Busy(v, op, k + 1))
      else
        s' == s.(ver := v + 2, writer := Idle, committed := s.committed + [s.mem], ops := s.ops + [op])
  }

  function ReaderNext<A, W, Op>(cfg: Config<A, W, Op>, s: State<A, W, Op>, r: Reader<A, W>): Reader<A, W>
    requires s.committed != []
  {
    match r
    case Attempt(left, since) =>
      if left == 0 then Failed
      else if s.ver % 2 == 1 then Attempt(left - 1, since)
      else Copying(left - 1, since, s.ver, [])
    case Copying(left, since, v1, log) =>
      (match cfg.next(log)
       case Some(a) => if a in s.mem then Copying(left, since, v1, log + [Write(a, s.mem[a])]) else r
       case None => if s.ver == v1 then Succeeded(since, |s.committed| - 1, v1, log) else Attempt(left, since))
    case _ =>
      // a fresh call
      Attempt(cfg.tries, |s.committed| - 1)
  }

  ghost predicate ReaderStep<A, W, Op>(cfg: Config<A, W, Op>, s: State<A, W, Op>, s': State<A, W, Op>) {
    s.committed != [] &&
    exists i :: 0 <= i < |s.readers| && s' == s.(readers := s.readers[i := ReaderNext(cfg, s, s.readers[i])])
  }

  ghost predicate Next<A, W, Op>(cfg: Config<A, W, Op>, s: State<A, W, Op>, s': State<A, W, Op>) {
    WriterStep(cfg, s, s') || ReaderStep(cfg, s, s')
  }

  ghost predicate IsRun<A, W, Op>(cfg: Config<A, W, Op>, run: seq<State<A, W, Op>>) {
    && run != [] && Init(cfg, run[0])
    && forall i :: 0 < i < |run| ==> Next(cfg, run[i - 1], run[i])
  }

  // ------------------------------------------------------------------ invariant

  /** Every copied word is the word the memory holds at that address. */
  ghost predicate Agrees<A, W>(log: seq<Write<A, W>>, mem: Memory<A, W>) {
    forall j :: 0 <= j < |log| ==> log[j].addr in mem && mem[log[j].addr] == log[j].value
  }

  /** The log was produced by the program. */
  ghost predicate Follows<A, W>(next: seq<Write<A, W>> -> Option<A>, log: seq<Write<A, W>>) {
    forall j :: 0 <= j < |log| ==> next(log[..j]) == Some(log[j].addr)
  }

  ghost predicate HistoryOk<A, W, Op>(cfg: Config<A, W, Op>, s: State<A, W, Op>) {
    && |s.committed| == |s.ops| + 1
    && forall i :: 0 <= i < |s.ops| ==> s.committed[i + 1] == Apply(s.committed[i], cfg.plan(s.committed[i], s.ops[i]))
  }

  ghost predicate WriterOk<A, W, Op>(cfg: Config<A, W, Op>, s: State<A, W, Op>)
    requires s.committed != []
  {
    var stable := cfg.base + 2 * (|s.committed| - 1);
    match s.writer
    case Idle => s.ver == stable && s.mem == Latest(s)
    case Loaded(v, _) => s.ver == v == stable && s.mem == Latest(s)
    case Busy(v, op, k) =>
      && v == stable && s.ver == stable + 1
      && k <= |cfg.plan(Latest(s), op)| && s.mem == Apply(Latest(s), cfg.plan(Latest(s), op)[..k])
  }

  /** The commit a version number stands for. */
  ghost predicate Names<A, W, Op>(cfg: Config<A, W, Op>, s: State<A, W, Op>, v: nat, k: nat) {
    k < |s.committed| && v == cfg.base + 2 * k
  }

  ghost predicate ReaderOk<A, W, Op>(cfg: Config<A, W, Op>, s: State<A, W, Op>, r: Reader<A, W>) {
    match r
    case Resting => true
    case Failed => true
    case Attempt(_, since) => since < |s.committed|
    case Copying(_, since, v1, log) =>
      && Follows(cfg.next, log)
      && exists k: nat :: Names(cfg, s, v1, k) && since <= k && (s.ver == v1 ==> Agrees(log, s.committed[k]))
    case Succeeded(since, until, v1, log) =>
      Follows(cfg.next, log) && cfg.next(log) == None
      && exists k: nat :: Names(cfg, s, v1, k) && since <= k <= until && Agrees(log, s.committed[k])
  }

  ghost predicate Inv<A, W, Op>(cfg: Config<A, W, Op>, s: State<A, W, Op>) {
    && cfg.base % 2 == 0
    && HistoryOk(cfg, s)
    && WriterOk(cfg, s)
    && forall i :: 0 <= i < |s.readers| ==> ReaderOk(cfg, s, s.readers[i])
  }

  /** What a reader knows survives any step of the writer: the version only grows. */
  lemma ReaderUndisturbed<A, W, Op>(cfg: Config<A, W, Op>, s: State<A, W, Op>, s': State<A, W, Op>, r: Reader<A, W>)
    requires Inv(cfg, s) && WriterStep(cfg, s, s') && ReaderOk(cfg, s, r)
    ensures ReaderOk(cfg, s', r)
  {
    match r {
      case Copying(_, since, v1, log) =>
        var k: nat :| Names(cfg, s, v1, k) && since <= k && (s.ver == v1 ==> Agrees(log, s.committed[k]));
        assert s'.committed[k] == s.committed[k] && v1 <= s.ver <= s'.ver;
        assert Names(cfg, s', v1, k);
      case Succeeded(since, until, v1, log) =>
        var k: nat :| Names(cfg, s, v1, k) && since <= k <= until && Agrees(log, s.committed[k]);
        assert s'.committed[k] == s.committed[k];
        assert Names(cfg, s', v1, k);
      case _ =>
    }
  }

  lemma WriterStepKeepsInv<A, W, Op>(cfg: Config<A, W, Op>, s: State<A, W, Op>, s': State<A, W, Op>)
    requires Inv(cfg, s) && WriterStep(cfg, s, s')
    ensures Inv(cfg, s')
  {
    forall i | 0 <= i < |s'.readers| ensures ReaderOk(cfg, s', s'.readers[i]) {
      ReaderUndisturbed(cfg, s, s', s.readers[i]);
    }
    if s.writer.Busy? {
      var writes, k := cfg.plan(Latest(s), s.writer.op), s.writer.done;
      if k < |writes| {
        assert writes[..k + 1][..k] == writes[..k];
      } else {
        assert writes[..k] == writes;
      }
    }
  }

  lemma ReaderStepKeepsInv<A, W, Op>(cfg: Config<A, W, Op>, s: State<A, W, Op>, r: Reader<A, W>)
    requires Inv(cfg, s) && ReaderOk(cfg, s, r)
    ensures ReaderOk(cfg, s, ReaderNext(cfg, s, r))
  {
    match r {
      case Attempt(left, since) =>
        if left > 0 && s.ver % 2 == 0 {
          assert Names(cfg, s, s.ver, |s.committed| - 1);
        }
      case Copying(left, since, v1, log) =>
        var k: nat :| Names(cfg, s, v1, k) && since <= k && (s.ver == v1 ==> Agrees(log, s.committed[k]));
        var r' := ReaderNext(cfg, s, r);
        if cfg.next(log).Some? {
          var a := cfg.next(log).value;
          if a in s.mem {
            var log' := log + [Write(a, s.mem[a])];
            assert forall j :: 0 <= j < |log| ==> log'[..j] == log[..j];
            assert log'[..|log|] == log;
            // an even version means no operation is under way, so the memory is the latest commit
            assert s.ver == v1 ==> s.mem == s.committed[k];
          }
        }
      case _ =>
    }
  }

  lemma {:induction false} RunKeepsInv<A, W, Op>(cfg: Config<A, W, Op>, run: seq<State<A, W, Op>>, i: nat)
    requires IsRun(cfg, run) && i < |run|
    ensures Inv(cfg, run[i])
  {
    if i > 0 {
      RunKeepsInv(cfg, run, i - 1);
      var s, s' := run[i - 1], run[i];
      if WriterStep(cfg, s, s') {
        WriterStepKeepsInv(cfg, s, s');
      } else {
        var j :| 0 <= j < |s.readers| && s' == s.(readers := s.readers[j := ReaderNext(cfg, s, s.readers[j])]);
        ReaderStepKeepsInv(cfg, s, s.readers[j]);
        assert s'.readers[j] == ReaderNext(cfg, s, s.readers[j]);
        forall i | 0 <= i < |s'.readers| ensures ReaderOk(cfg, s', s'.readers[i]) {
          SameShared(cfg, s, s', s'.readers[i]);
        }
      }
    }
  }

  lemma SameShared<A, W, Op>(cfg: Config<A, W, Op>, s: State<A, W, Op>, s': State<A, W, Op>, r: Reader<A, W>)
    requires s'.committed == s.committed && s'.ver == s.ver && ReaderOk(cfg, s, r)
    ensures ReaderOk(cfg, s', r)
  {
    match r {
      case Copying(_, since, v1, log) =>
        var k: nat :| Names(cfg, s, v1, k) && since <= k && (s.ver == v1 ==> Agrees(log, s.committed[k]));
        assert Names(cfg, s', v1, k);
      case Succeeded(since, until, v1, log) =>
        var k: nat :| Names(cfg, s, v1, k) && since <= k <= until && Agrees(log, s.committed[k]);
        assert Names(cfg, s', v1, k);
      case _ =>
    }
  }

  /**
   In every run, a read that succeeds has copied one committed memory, which was the current one at
   some instant between the start and the return of the call.
   */
  lemma SuccessfulReadIsOneCommit<A, W, Op>(cfg: Config<A, W, Op>, run: seq<State<A, W, Op>>, i: nat, r: nat)
      returns (k: nat)
    requires IsRun(cfg, run) && i < |run| && r < |run[i].readers| && run[i].readers[r].Succeeded?
    ensures var f := run[i].readers[r];
            && f.since <= k <= f.until && k < |run[i].committed|
            && Agrees(f.log, run[i].committed[k]) && Follows(cfg.next, f.log) && cfg.next(f.log) == None
  {
    RunKeepsInv(cfg, run, i);
    var f := run[i].readers[r];
    assert ReaderOk(cfg, run[i], f);
    k :| Names(cfg, run[i], f.v1, k) && f.since <= k <= f.until && Agrees(f.log, run[i].committed[k]);
  }
}
