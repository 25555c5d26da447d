/** Whole runs of the configuration store: any sequence of calls and power cycles, on flash that
    starts with arbitrary content and may fail at any word. */
module StoreRuns {
  import opened Bytes
  import opened Container
  import opened Flash
  import opened Slots
  import opened ConfigStore

  datatype Op = Begin(total: nat) | Chunk(data: bytes) | Clear | Cancel | PowerCycle

  /** The transaction a client knows to be open: its size and the bytes sent. */
  datatype Transfer = Closed | Open(total: nat, sent: bytes)

  /** The transaction after one more call; a call that fails closes it. */
  function Advance(t: Transfer, op: Op, ok: bool): Transfer {
    match op
    case Begin(total) => if ok then Open(total, []) else Closed
    case Chunk(data) =>
      if ok && t.Open? && |t.sent + data| < t.total then Open(t.total, t.sent + data) else Closed
    case _ => Closed
  }

  predicate Fits(t: Transfer, data: bytes)
    requires t.Open?
  {
    |t.sent + data| <= t.total && (data != [] || t.total == 0)
  }

  /** The configuration this call would commit, if any. */
  function Commits(t: Transfer, op: Op): Option<bytes> {
    match op
    case Chunk(data) =>
      if t.Open? && Fits(t, data) && |t.sent + data| == t.total && Acceptable(t.sent + data)
      then Some(Installed(t.sent + data)) else None
    case Clear => Some(Installed([]))
    case _ => None
  }

  /** A call that nothing but the flash can make fail. */
  predicate Legal(t: Transfer, op: Op) {
    match op
    case Begin(total) => total <= CONFIG_MAX
    case Chunk(data) => t.Open? && Fits(t, data) && (|t.sent + data| == t.total ==> Acceptable(t.sent + data))
    case _ => true
  }

  /** The transaction a client knows to be open after these calls and their results. */
  function View(ops: seq<Op>, oks: seq<bool>): Transfer
    requires |ops| == |oks|
  {
    if ops == [] then Closed
    else
      var n := |ops| - 1;
      Advance(View(ops[..n], oks[..n]), ops[n], oks[n])
  }

  /** What the i-th call of a run would commit. */
  function Attempt(ops: seq<Op>, oks: seq<bool>, i: nat): Option<bytes>
    requires |ops| == |oks| && i < |ops|
  {
    Commits(View(ops[..i], oks[..i]), ops[i])
  }

  /** Every configuration some call of the run completely sent. */
  function Sent(ops: seq<Op>, oks: seq<bool>): set<bytes>
    requires |ops| == |oks|
  {
    if ops == [] then {}
    else
      var n := |ops| - 1;
      Sent(ops[..n], oks[..n]) + match Attempt(ops, oks, n) case Some(c) => {c} case None => {}
  }

  /** The configurations that may be in force after a run: a commit reported ok leaves only itself,
      one reported as failed leaves it open whether it landed, and nothing else changes anything. */
  function Possible(ops: seq<Op>, oks: seq<bool>, start: bytes): set<bytes>
    requires |ops| == |oks|
  {
    if ops == [] then {start}
    else
      var n := |ops| - 1;
      var before := Possible(ops[..n], oks[..n], start);
      match Attempt(ops, oks, n)
      case None => before
      case Some(c) => if oks[n] then {c} else before + {c}
  }

  /** The last commit wins: when a commit was reported ok and no commit was attempted since, it is
      the only configuration that can be in force, whatever failed before it. */
  lemma {:induction false} LastCommitWins(ops: seq<Op>, oks: seq<bool>, start: bytes, i: nat)
    requires |ops| == |oks| && i < |ops| && oks[i] && Attempt(ops, oks, i).Some?
    requires forall j :: i < j < |ops| ==> Attempt(ops, oks, j).None?
    ensures Possible(ops, oks, start) == {Attempt(ops, oks, i).value}
  {
    hide Commits, View;
    var n := |ops| - 1;
    if i == n {
    } else {
      forall j | i <= j < n
        ensures Attempt(ops[..n], oks[..n], j) == Attempt(ops, oks, j)
      {
        assert ops[..n][..j] == ops[..j] && oks[..n][..j] == oks[..j];
      }
      LastCommitWins(ops[..n], oks[..n], start, i);
      assert Attempt(ops, oks, n).None?;
    }
  }

  /** Nothing is possible that was neither there at the start nor sent. */
  lemma {:induction false} PossibleWasSent(ops: seq<Op>, oks: seq<bool>, start: bytes)
    requires |ops| == |oks|
    ensures Possible(ops, oks, start) <= {start} + Sent(ops, oks)
  {
    hide Commits, View, Attempt;
    if ops == [] {
    } else {
      PossibleWasSent(ops[..|ops| - 1], oks[..|ops| - 1], start);
    }
  }

  ghost predicate AllBootIn(log: seq<Image>, n: nat, configs: set<bytes>) {
    n <= |log| && forall k :: n <= k < |log| ==> BootConfig(log[k]) in configs
  }

  /** The store has open what the client knows to be open. */
  ghost predicate InStep(s: Store, t: Transfer)
    reads s
  {
    t == if s.Writing() then Open(s.expected, s.open) else Closed
  }

  /** The configurations a call may leave in force, in RAM or after a power cut. */
  ghost function Allowed(s: Store, commit: Option<bytes>): set<bytes>
    requires s.Valid()
    reads s, s.flash, s.flash.mem
  {
    {s.Effective(), BootConfig(s.Content())} + match commit case Some(c) => {c} case None => {}
  }

  lemma KeptAllBoot(log: seq<Image>, n: nat, p: Promise, configs: set<bytes>)
    requires p.slot < 2 && Kept(log, n, p) && p.configs <= configs
    ensures AllBootIn(log, n, configs)
  {
    hide BootConfig, Page;
  }

  /** The call itself: the contents it passes through, and what it leaves in RAM. */
  method Apply(s: Store, op: Op, ghost t: Transfer) returns (ok: bool)
    requires s.Valid() && InStep(s, t)
    modifies s, s.flash, s.flash.mem
    ensures s.Valid() && InStep(s, Advance(t, op, ok))
    ensures old(s.flash.faults) <= s.flash.faults && (ok <==> Legal(t, op) && s.flash.faults == old(s.flash.faults))
    ensures old(s.flash.log) <= s.flash.log
            && AllBootIn(s.flash.log, |old(s.flash.log)|, old(Allowed(s, Commits(t, op))))
    ensures op.Cancel? || op.PowerCycle? ==> s.Content() == old(s.Content())
    ensures op.PowerCycle? ==> Boot(s.Content()) == s.Chosen()
    ensures ok && Commits(t, op).Some? ==>
      s.Effective() == Commits(t, op).value && !s.Writing() && Boot(s.Content()) == s.Chosen()
    ensures !op.PowerCycle? && !(ok && Commits(t, op).Some?) ==> s.Effective() == old(s.Effective())
  {
    hide BootConfig, Boot, Backed, ConfigOf, Page, Staged, Target, Committed, Validate, Installed, Acceptable;
    ghost var log, configs := s.flash.log, Allowed(s, Commits(t, op));
    match op {
      case Begin(total) =>
        ghost var p := s.Promises({s.Effective()});
        ok := s.Start(total);
        KeptAllBoot(s.flash.log, |log|, p, configs);
      case Chunk(data) =>
        ghost var full := s.open + data;
        ghost var p, q := s.Promises({s.Effective()}), s.Promises({s.Effective(), Installed(full)});
        ghost var last := s.Writing() && Fits(t, data) && |full| == s.expected && Acceptable(full);
        s.OpenLength();
        ok := s.Append(data);
        KeptAllBoot(s.flash.log, |log|, if last then q else p, configs);
      case Clear =>
        ghost var p := s.Promises({s.Effective(), Installed([])});
        ok := s.Clear();
        KeptAllBoot(s.flash.log, |log|, p, configs);
      case Cancel =>
        s.Cancel();
        ok := true;
      case PowerCycle =>
        s.Init();
        ok := true;
    }
  }

  /** One call: whether it succeeds, and what any power cut during it, and any failure of it, can
      leave in force. A commit reported ok is in force and survives a power cut, whatever failed
      before it. */
  method Call(s: Store, op: Op, ghost t: Transfer) returns (ok: bool)
    requires s.Valid() && InStep(s, t)
    modifies s, s.flash, s.flash.mem
    ensures s.Valid() && InStep(s, Advance(t, op, ok))
    ensures old(s.flash.faults) <= s.flash.faults && (ok <==> Legal(t, op) && s.flash.faults == old(s.flash.faults))
    ensures old(s.flash.log) <= s.flash.log
            && AllBootIn(s.flash.log, |old(s.flash.log)|, old(Allowed(s, Commits(t, op))))
    ensures s.Effective() in old(Allowed(s, Commits(t, op)))
    ensures BootConfig(s.Content()) in old(Allowed(s, Commits(t, op)))
    ensures ok && Commits(t, op).Some? ==> s.Effective() == BootConfig(s.Content()) == Commits(t, op).value
  {
    hide BootConfig, Boot, Backed, ConfigOf, Page, Staged, Target, Committed, Validate, Installed, Acceptable, Legal;
    ghost var log := s.flash.log;
    ok := Apply(s, op, t);
    ghost var at := |s.flash.log| - 1;
    assert s.Content() == s.flash.log[at];
    assert at < |log| ==> s.flash.log[at] == log[at];
    if s.Writing() || Boot(s.Content()) == s.Chosen() {
      s.BootAgrees();
    }
  }

  /** A whole run after a boot from arbitrary flash content, with power cycles and any failures.
      Every content the device passes through boots into the configuration a boot found at the
      start, or into one that some call of the run sent completely (the built-in one for a clear).
      What is in force at the end, and after a power cut at the end, is possible in the sense above:
      by LastCommitWins exactly the last commit reported ok unless a later one was attempted and
      failed. Without a fault of the flash, exactly the legal calls succeed. */
  method Run(flash: Device, ops: seq<Op>) returns (s: Store, oks: seq<bool>)
    requires flash.Valid()
    modifies flash, flash.mem
    ensures fresh(s) && s.flash == flash && s.Valid() && |oks| == |ops|
    ensures var start := BootConfig(old(flash.Content()));
            && old(flash.log) <= flash.log && AllBootIn(flash.log, |old(flash.log)|, {start} + Sent(ops, oks))
            && s.Effective() in Possible(ops, oks, start) && BootConfig(s.Content()) in Possible(ops, oks, start)
    ensures forall i :: 0 <= i < |ops| && oks[i] ==> Legal(View(ops[..i], oks[..i]), ops[i])
    ensures flash.faults == old(flash.faults) ==>
      forall i :: 0 <= i < |ops| && Legal(View(ops[..i], oks[..i]), ops[i]) ==> oks[i]
  {
    hide BootConfig, Boot, Backed, ConfigOf, Page, Staged, Target, Legal, Commits, AllBootIn;
    ghost var start, before := BootConfig(flash.Content()), flash.log;
    s := new Store(flash);
    oks := [];
    assert ops[..0] == [];
    NoneBoot(before, {start} + Sent(ops[..0], oks));
    for i := 0 to |ops|
      invariant |oks| == i && fresh(s) && s.flash == flash && s.Valid() && InStep(s, View(ops[..i], oks))
      invariant s.Effective() in Possible(ops[..i], oks, start)
          && BootConfig(s.Content()) in Possible(ops[..i], oks, start)
      invariant before <= flash.log && AllBootIn(flash.log, |before|, {start} + Sent(ops[..i], oks))
      invariant old(flash.faults) <= flash.faults
      invariant forall j :: 0 <= j < i && oks[j] ==> Legal(View(ops[..j], oks[..j]), ops[j])
      invariant flash.faults == old(flash.faults) ==>
        forall j :: 0 <= j < i && Legal(View(ops[..j], oks[..j]), ops[j]) ==> oks[j]
    {
      ghost var log, t, seen := flash.log, View(ops[..i], oks), oks;
      ghost var allowed := Allowed(s, Commits(t, ops[i]));
      PossibleWasSent(ops[..i], oks, start);
      var ok := Call(s, ops[i], t);
      oks := oks + [ok];
      OneMoreCall(ops, seen, ok, i, start);
      AllBootJoin(before, log, flash.log, {start} + Sent(ops[..i], seen), allowed, {start} + Sent(ops[..i + 1], oks));
      forall j | 0 <= j <= i
        ensures oks[..j] == seen[..j]
      {
      }
    }
    assert ops[..|ops|] == ops && oks[..|ops|] == oks;
  }

  /** How one more call and its result extend what a run has recorded. */
  lemma OneMoreCall(ops: seq<Op>, oks: seq<bool>, ok: bool, i: nat, start: bytes)
    requires |oks| == i < |ops|
    ensures var more, all := ops[..i + 1], oks + [ok];
            var commit := Commits(View(ops[..i], oks), ops[i]);
            && View(more, all) == Advance(View(ops[..i], oks), ops[i], ok)
            && Sent(more, all) == Sent(ops[..i], oks) + (match commit case Some(c) => {c} case None => {})
            && Possible(more, all, start) == (match commit
                                              case None => Possible(ops[..i], oks, start)
                                              case Some(c) => if ok then {c} else Possible(ops[..i], oks, start) + {c})
  {
    hide Commits, Advance;
    assert ops[..i + 1][..i] == ops[..i] && (oks + [ok])[..i] == oks;
  }

  lemma NoneBoot(log: seq<Image>, configs: set<bytes>)
    ensures AllBootIn(log, |log|, configs)
  {
  }

  lemma AllBootJoin(a: seq<Image>, b: seq<Image>, c: seq<Image>, early: set<bytes>, late: set<bytes>, all: set<bytes>)
    requires a <= b <= c && AllBootIn(b, |a|, early) && AllBootIn(c, |b|, late) && early <= all && late <= all
    ensures AllBootIn(c, |a|, all)
  {
    hide BootConfig;
  }

  /** An upload in chunks: however a container is split, what is staged is what was received so far
      behind an erased header, and the committed page is the one a single append would leave. */
  method Upload(s: Store, total: nat, chunks: seq<bytes>) returns (ok: bool)
    requires s.Valid() && [] !in chunks
    modifies s, s.flash, s.flash.mem
    ensures s.Valid() && old(s.flash.faults) <= s.flash.faults
    ensures var data := Flatten(chunks);
            ok <==> |data| <= total <= CONFIG_MAX && (|data| == total > 0 ==> Acceptable(data))
                    && s.flash.faults == old(s.flash.faults)
    ensures ok && |Flatten(chunks)| < total ==>
      s.Writing() && s.Chosen() == old(s.Chosen()) && Page(s.Content(), Target(s.Chosen())) == Staged(Flatten(chunks))
    ensures ok && |Flatten(chunks)| == total > 0 ==> s.CommittedOver(old(s.Chosen()), Flatten(chunks))
  {
    hide BootConfig, Boot, Backed, ConfigOf, Page, Staged, Target, Committed, Validate, Acceptable, Kept;
    ghost var c := s.Chosen();
    ok := s.Start(total);
    var i := 0;
    assert chunks[..0] == [];
    while ok && i < |chunks|
      invariant i <= |chunks| && s.Valid() && old(s.flash.faults) <= s.flash.faults
      invariant ok ==> s.flash.faults == old(s.flash.faults) && |Flatten(chunks[..i])| <= total <= CONFIG_MAX
      invariant !ok ==> total > CONFIG_MAX || s.flash.faults > old(s.flash.faults)
                        || |Flatten(chunks[..i])| > total
                        || (|Flatten(chunks[..i])| == total > 0 && !Acceptable(Flatten(chunks[..i])))
      invariant ok && (|Flatten(chunks[..i])| < total || total == 0) ==>
        s.Writing() && s.Chosen() == c && s.open == Flatten(chunks[..i]) && s.expected == total
      invariant ok && |Flatten(chunks[..i])| == total > 0 ==>
        !s.Writing() && Acceptable(Flatten(chunks[..i])) && s.CommittedOver(c, Flatten(chunks[..i]))
    {
      assert chunks[..i + 1] == chunks[..i] + [chunks[i]];
      FlattenSnoc(chunks[..i], chunks[i]);
      s.OpenLength();
      ok := s.Append(chunks[i]);
      i := i + 1;
    }
    FlattenSplit(chunks, i);
    assert i < |chunks| ==> chunks[i] != [];
    assert chunks[..|chunks|] == chunks;
  }
}
