// Any number of callers, their transactions interleaved step by step.
module ReaderRaces {
  import opened Prelude
  import opened ReaderModel
  import opened ReaderInvariants

  // Where a caller is: each read, the commit, and each look for a winner is a step of its own.
  datatype Phase =
    | Begun
    | Checked
    | Entitled(pageCount: Option<nat>)
    | Loaded(seen: Db, pageCount: Option<nat>)
    | Replaying(left: nat)
    | Answered(reply: Reply)

  datatype Client = Client(request: Request, phase: Phase)

  // The history of committed effects, kept for stating properties only.
  datatype Entry = Entry(request: Request, result: Result, pageCount: Option<nat>, now: Time)

  datatype System = System(db: Db, clients: seq<Client>, log: seq<Entry>)

  datatype Event =
    | Submit(request: Request)
    | CheckReceipt(who: nat)
    | ReadAccess(who: nat, access: Access)
    | ReadRow(who: nat)
    | CommitTransaction(who: nat, now: Time)
    | ReadWinner(who: nat)

  function Move(s: System, who: nat, phase: Phase): System
    requires who < |s.clients|
  {
    s.(clients := s.clients[who := s.clients[who].(phase := phase)])
  }

  function CommitStep(s: System, who: nat, now: Time): System
    requires who < |s.clients| && s.clients[who].phase.Loaded?
  {
    var Client(request, Loaded(seen, pageCount)) := s.clients[who];
    match Commit(seen, s.db, request, pageCount, now)
    case UniqueViolation => Move(s, who, Replaying(REPLAY_READ_ATTEMPTS))
    case Done(after, result) =>
      var answered := Move(s, who, Answered(Ok(result))).(db := after);
      if result.Receipted() then answered.(log := s.log + [Entry(request, result, pageCount, now)]) else answered
  }

  function ReplayStep(s: System, who: nat): System
    requires who < |s.clients| && s.clients[who].phase.Replaying?
  {
    match PriorReply(s.db, s.clients[who].request)
    case Some(reply) => Move(s, who, Answered(reply))
    case None =>
      var left := s.clients[who].phase.left;
      Move(s, who, if left <= 1 then Answered(RetryLater) else Replaying(left - 1))
  }

  // An event whose caller is not at that step does nothing.
  function Next(s: System, e: Event): System {
    match e
    case Submit(request) => s.(clients := s.clients + [Client(request, Begun)])
    case CheckReceipt(who) =>
      if who < |s.clients| && s.clients[who].phase.Begun? then
        match PriorReply(s.db, s.clients[who].request)
        case Some(reply) => Move(s, who, Answered(reply))
        case None => Move(s, who, Checked)
      else s
    case ReadAccess(who, access) =>
      if who < |s.clients| && s.clients[who].phase.Checked? then
        match AccessReply(s.clients[who].request, access)
        case Some(reply) => Move(s, who, Answered(reply))
        case None => Move(s, who, Entitled(access.pageCount))
      else s
    case ReadRow(who) =>
      if who < |s.clients| && s.clients[who].phase.Entitled?
      then Move(s, who, Loaded(s.db, s.clients[who].phase.pageCount)) else s
    case CommitTransaction(who, now) =>
      if who < |s.clients| && s.clients[who].phase.Loaded? then CommitStep(s, who, now) else s
    case ReadWinner(who) =>
      if who < |s.clients| && s.clients[who].phase.Replaying? then ReplayStep(s, who) else s
  }

  function Run(s: System, events: seq<Event>): System {
    if events == [] then s else Next(Run(s, events[..|events| - 1]), events[|events| - 1])
  }

  // ── The invariant of a run that started from `start` ──

  // The stored receipt of a request that was answered from one.
  ghost predicate Backed(db: Db, request: Request, reply: Reply) {
    match reply
    case Ok(result) => result.Receipted() ==>
      && request.Key() in db.receipts
      && db.receipts[request.Key()].payload == request.payload && db.receipts[request.Key()].result == result
    case DifferentPayload => request.Key() in db.receipts && db.receipts[request.Key()].payload != request.payload
    case RetryLater => true
  }

  ghost predicate ClientOk(db: Db, c: Client) {
    match c.phase
    case Loaded(seen, _) => Inv(seen) && Evolves(seen, db)
    case Answered(reply) => Backed(db, c.request, reply)
    case _ => true
  }

  ghost predicate Logged(db: Db, e: Entry) {
    && e.result.Receipted()
    && e.request.Key() in db.receipts
    && db.receipts[e.request.Key()].payload == e.request.payload && db.receipts[e.request.Key()].result == e.result
  }

  // The log holds exactly one entry for each receipt inserted since the start.
  ghost predicate LogOk(start: Db, db: Db, log: seq<Entry>) {
    && (forall i :: 0 <= i < |log| ==> Logged(db, log[i]) && log[i].request.Key() !in start.receipts)
    && (forall i, j :: 0 <= i < j < |log| ==> log[i].request.Key() != log[j].request.Key())
    && (forall k :: k in db.receipts && k !in start.receipts ==> exists i :: 0 <= i < |log| && log[i].request.Key() == k)
  }

  ghost predicate SystemOk(start: Db, s: System) {
    && Inv(s.db) && Evolves(start, s.db)
    && (forall i :: 0 <= i < |s.clients| ==> ClientOk(s.db, s.clients[i]))
    && LogOk(start, s.db, s.log)
  }

  lemma ClientLater(a: Db, b: Db, c: Client)
    requires ClientOk(a, c) && Evolves(a, b)
    ensures ClientOk(b, c)
  {
    if c.phase.Loaded? { EvolvesTransitive(c.phase.seen, a, b); }
  }

  lemma LogGrows(start: Db, a: Db, b: Db, log: seq<Entry>, e: Entry, receipt: Receipt)
    requires LogOk(start, a, log) && Evolves(start, a)
    requires e.result.Receipted() && e.request.Key() !in a.receipts
    requires receipt.payload == e.request.payload && receipt.result == e.result
    requires b.receipts == a.receipts[e.request.Key() := receipt]
    ensures LogOk(start, b, log + [e])
  {
    hide Inv;
    var longer := log + [e];
    forall i | 0 <= i < |longer| ensures Logged(b, longer[i]) && longer[i].request.Key() !in start.receipts {
      if i < |log| { assert Logged(a, log[i]); }
    }
    forall k | k in b.receipts && k !in start.receipts ensures exists i :: 0 <= i < |longer| && longer[i].request.Key() == k {
      if k == e.request.Key() { assert longer[|log|].request.Key() == k; }
      else {
        var i :| 0 <= i < |log| && log[i].request.Key() == k;
        assert longer[i].request.Key() == k;
      }
    }
  }

  lemma MoveOk(start: Db, s: System, who: nat, phase: Phase)
    requires SystemOk(start, s) && who < |s.clients|
    requires ClientOk(s.db, s.clients[who].(phase := phase))
    ensures SystemOk(start, Move(s, who, phase))
  {
    hide Inv, Evolves, LogOk, ClientOk;
  }

  lemma CommitStepOk(start: Db, s: System, who: nat, now: Time)
    requires SystemOk(start, s) && who < |s.clients| && s.clients[who].phase.Loaded?
    ensures SystemOk(start, CommitStep(s, who, now))
  {
    var Client(request, Loaded(seen, pageCount)) := s.clients[who];
    assert ClientOk(s.db, s.clients[who]);
    var t := CommitStep(s, who, now);
    hide Inv, Evolves, LogOk, Commit;
    match Commit(seen, s.db, request, pageCount, now)
    case UniqueViolation => MoveOk(start, s, who, Replaying(REPLAY_READ_ATTEMPTS));
    case Done(after, result) =>
      CommitSafe(seen, s.db, request, pageCount, now);
      EvolvesTransitive(start, s.db, after);
      forall i | 0 <= i < |t.clients| ensures ClientOk(t.db, t.clients[i]) {
        if i != who { ClientLater(s.db, after, s.clients[i]); }
      }
      if result.Receipted() {
        LogGrows(start, s.db, after, s.log, Entry(request, result, pageCount, now), Receipt(s.db.nextId, request.payload, result));
      }
  }

  lemma NextOk(start: Db, s: System, e: Event)
    requires SystemOk(start, s)
    ensures SystemOk(start, Next(s, e))
  {
    match e
    case CommitTransaction(who, now) =>
      if who < |s.clients| && s.clients[who].phase.Loaded? { CommitStepOk(start, s, who, now); }
    case Submit(_) =>
      hide Inv, Evolves, LogOk;
    case ReadRow(who) =>
      if who < |s.clients| && s.clients[who].phase.Entitled? {
        EvolvesReflexive(s.db);
        MoveOk(start, s, who, Next(s, e).clients[who].phase);
      }
    case _ =>
      hide Inv, Evolves, LogOk;
      if Next(s, e) != s { MoveOk(start, s, e.who, Next(s, e).clients[e.who].phase); }
  }

  // A run starts with no caller.
  predicate Initial(s: System) { s.clients == [] && s.log == [] }

  lemma {:induction false} RunOk(s: System, events: seq<Event>)
    requires Inv(s.db) && Initial(s)
    ensures SystemOk(s.db, Run(s, events))
  {
    if events == [] {
      EvolvesReflexive(s.db);
    } else {
      RunOk(s, events[..|events| - 1]);
      NextOk(s.db, Run(s, events[..|events| - 1]), events[|events| - 1]);
    }
  }

  // ── Exactly once ──

  // One step changes the tables only by committing one operation whose key had no receipt, and logs it.
  ghost predicate AtMostOneOperation(s: System, t: System) {
    if t.db == s.db then t.log == s.log
    else
      && |t.log| == |s.log| + 1 && t.log[..|s.log|] == s.log
      && var key := t.log[|s.log|].request.Key();
         key !in s.db.receipts && t.db.receipts.Keys == s.db.receipts.Keys + {key}
  }

  lemma CommitStepChangesOne(s: System, who: nat, now: Time)
    requires Inv(s.db) && who < |s.clients| && s.clients[who].phase.Loaded? && ClientOk(s.db, s.clients[who])
    ensures AtMostOneOperation(s, CommitStep(s, who, now))
  {
    hide Inv, Evolves, Commit;
    var Client(request, Loaded(seen, pageCount)) := s.clients[who];
    if Commit(seen, s.db, request, pageCount, now).Done? {
      var after := Commit(seen, s.db, request, pageCount, now).db;
      CommitSafe(seen, s.db, request, pageCount, now);
      if request.Key() in after.receipts && request.Key() !in s.db.receipts { assert after != s.db; }
    }
  }

  lemma StepChangesAtMostOneOperation(start: Db, s: System, e: Event)
    requires SystemOk(start, s)
    ensures AtMostOneOperation(s, Next(s, e))
  {
    hide Inv, Evolves, LogOk, CommitStep, ReplayStep, ClientOk;
    if e.CommitTransaction? && e.who < |s.clients| && s.clients[e.who].phase.Loaded? {
      CommitStepChangesOne(s, e.who, e.now);
    } else if e.ReadWinner? && e.who < |s.clients| && s.clients[e.who].phase.Replaying? {
      ReplayKeepsTables(s, e.who);
    }
  }

  lemma ReplayKeepsTables(s: System, who: nat)
    requires who < |s.clients| && s.clients[who].phase.Replaying?
    ensures ReplayStep(s, who).db == s.db && ReplayStep(s, who).log == s.log
  {
  }

  function Changes(s: System, events: seq<Event>): nat {
    if events == [] then 0 else
      var before := Run(s, events[..|events| - 1]);
      Changes(s, events[..|events| - 1]) + if Next(before, events[|events| - 1]).db == before.db then 0 else 1
  }

  lemma {:induction false} ChangesAreLogged(s: System, events: seq<Event>)
    requires Inv(s.db) && Initial(s)
    ensures Changes(s, events) == |Run(s, events).log|
  {
    if events != [] {
      ChangesAreLogged(s, events[..|events| - 1]);
      RunOk(s, events[..|events| - 1]);
      StepChangesAtMostOneOperation(s.db, Run(s, events[..|events| - 1]), events[|events| - 1]);
      hide Next, SystemOk, Inv;
    }
  }

  // Exactly once, over every interleaving. Each (subject, operation id) takes effect at most once: the steps that
  // changed the tables are as many as the log entries, whose keys are pairwise distinct and are exactly the new
  // receipts. Every APPLIED or CONFLICT reply is the stored result of the stored payload, so two callers with one
  // key and such replies sent the same payload and got the same answer; a refusal means another payload holds it.
  lemma ExactlyOnce(s: System, events: seq<Event>)
    requires Inv(s.db) && Initial(s)
    ensures var end := Run(s, events);
            && Changes(s, events) == |end.log|
            && (forall i, j :: 0 <= i < j < |end.log| ==> end.log[i].request.Key() != end.log[j].request.Key())
            && end.db.receipts.Keys == s.db.receipts.Keys + (set i | 0 <= i < |end.log| :: end.log[i].request.Key())
            && (forall i :: 0 <= i < |end.clients| && end.clients[i].phase.Answered? ==>
                  Backed(end.db, end.clients[i].request, end.clients[i].phase.reply))
  {
    RunOk(s, events);
    ChangesAreLogged(s, events);
    var end := Run(s, events);
    hide Run, Changes, Inv;
    forall i | 0 <= i < |end.clients| && end.clients[i].phase.Answered?
      ensures Backed(end.db, end.clients[i].request, end.clients[i].phase.reply)
    {
      assert ClientOk(end.db, end.clients[i]);
    }
    forall i | 0 <= i < |end.log| ensures end.log[i].request.Key() in end.db.receipts {
      assert Logged(end.db, end.log[i]);
    }
  }

  lemma SameKeySameAnswer(s: System, events: seq<Event>, i: nat, j: nat)
    requires Inv(s.db) && Initial(s)
    requires var end := Run(s, events);
             && i < |end.clients| && j < |end.clients|
             && end.clients[i].request.Key() == end.clients[j].request.Key()
             && end.clients[i].phase.Answered? && end.clients[i].phase.reply.Ok? && end.clients[i].phase.reply.result.Receipted()
             && end.clients[j].phase.Answered?
    ensures var a, b := Run(s, events).clients[i], Run(s, events).clients[j];
            && (a.request.payload != b.request.payload ==> !(b.phase.reply.Ok? && b.phase.reply.result.Receipted()))
            && (b.phase.reply.Ok? && b.phase.reply.result.Receipted() ==> b.phase.reply == a.phase.reply)
            && (b.phase.reply.DifferentPayload? ==> a.request.payload != b.request.payload)
  {
    RunOk(s, events);
    var end := Run(s, events);
    hide Run, Inv, Evolves, LogOk;
    assert ClientOk(end.db, end.clients[i]) && ClientOk(end.db, end.clients[j]);
  }

  // ── Looking for the winner ──

  // The step is one of the looks for a winner's receipt that `who` takes after its transaction was aborted.
  predicate IsLook(s: System, e: Event, who: nat) {
    e == ReadWinner(who) && who < |s.clients| && s.clients[who].phase.Replaying?
  }

  function Looks(s: System, events: seq<Event>, who: nat): nat {
    if events == [] then 0 else
      var most, e := events[..|events| - 1], events[|events| - 1];
      Looks(s, most, who) + if IsLook(Run(s, most), e, who) then 1 else 0
  }

  // The looks that found no receipt.
  function Misses(s: System, events: seq<Event>, who: nat): nat {
    if events == [] then 0 else
      var most, e := events[..|events| - 1], events[|events| - 1];
      var before := Run(s, most);
      Misses(s, most, who)
        + if IsLook(before, e, who) && before.clients[who].request.Key() !in before.db.receipts then 1 else 0
  }

  predicate LooksOk(s: System, who: nat, looks: nat, misses: nat) {
    && misses <= looks
    && if |s.clients| <= who then looks == 0
       else match s.clients[who].phase
         case Replaying(left) => 1 <= left <= 5 && misses == looks == 5 - left
         case Answered(reply) => looks <= 5 && (reply.RetryLater? <==> misses == 5)
         case _ => looks == 0
  }

  lemma LooksStep(s: System, e: Event, who: nat, looks: nat, misses: nat)
    requires LooksOk(s, who, looks, misses)
    ensures LooksOk(Next(s, e), who, looks + if IsLook(s, e, who) then 1 else 0,
                    misses + if IsLook(s, e, who) && s.clients[who].request.Key() !in s.db.receipts then 1 else 0)
  {
    hide Commit;
  }

  // Over every run a caller looks at most five times, and it is told to retry later exactly when it looked five times and
  // no receipt for its key existed at any of them.
  lemma {:induction false} RetryLaterMeansNoReceipt(s: System, events: seq<Event>, who: nat)
    requires Initial(s)
    ensures LooksOk(Run(s, events), who, Looks(s, events, who), Misses(s, events, who))
  {
    if events != [] {
      var most, e := events[..|events| - 1], events[|events| - 1];
      RetryLaterMeansNoReceipt(s, most, who);
      hide Next, LooksOk;
      LooksStep(Run(s, most), e, who, Looks(s, most, who), Misses(s, most, who));
    }
  }
}
