/** Workers extracting files in cbm.c: the once-only load of the quarantine set, the question whether a
    file is quarantined, and the start/done journal, as steps of any number of threads. */
module QuarantineProtocol {
  import opened Basics

  /** `g_quarantine_state`. */
  datatype Phase = Uninit | Initing | Inited

  /** Where a thread is. A thread extracts one file after the other; `extracting` is false for the
      pipeline loops that only ask. */
  datatype Thread =
    | Idle
    | Asking(path: string, extracting: bool)      // before the first atomic load
    | Trying(path: string, extracting: bool)      // saw a state other than INITED
    | Loading(path: string, extracting: bool)     // won the compare-and-swap
    | Publishing(path: string, extracting: bool)  // the set is loaded, INITED not yet stored
    | Spinning(path: string, extracting: bool)
    | Querying(path: string, extracting: bool)    // INITED was seen
    | Answered(path: string, extracting: bool, quarantined: bool)
    | Inside(path: string)                        // start mark written, extraction running
    | Leaving(path: string, started: bool)        // before the done mark

  datatype Event = Start(path: string) | Done(path: string)

  /** `lost` counts the marks that were not written because the journal could not be opened, `bare` the
      files finished without having been started, `failed` are the files for which a result could not be
      allocated, `answers` every answer given for a non-empty path. */
  datatype State = State(
    threads: seq<Thread>,
    phase: Phase,
    quarantine: Option<set<string>>,   // None: NULL
    loads: nat,
    journal: seq<Event>,
    lost: multiset<Event>,
    bare: multiset<string>,
    failed: set<string>,
    answers: seq<(string, bool)>)

  ghost predicate Init(s: State) {
    && (forall i :: 0 <= i < |s.threads| ==> s.threads[i].Idle?)
    && s.phase.Uninit? && s.quarantine == None && s.loads == 0
    && s.journal == [] && s.lost == multiset{} && s.bare == multiset{} && s.failed == {} && s.answers == []
  }

  predicate InSet(q: Option<set<string>>, path: string) {
    q.Some? && path in q.value
  }

  function Move(s: State, i: nat, t: Thread): State
    requires i < |s.threads|
  {
    s.(threads := s.threads[i := t])
  }

  /** `cbm_quarantine_load` leaves whatever set the file gives, or none. */
  function Loaded(s: State, i: nat, t: Thread, q: Option<set<string>>): State
    requires i < |s.threads|
  {
    Move(s, i, t).(quarantine := q, loads := s.loads + 1)
  }

  /** `cbm_index_mark`: nothing for an empty path, and nothing if the journal cannot be opened. */
  function Marked(s: State, e: Event, written: bool): State {
    if e.path == "" then s
    else if written then s.(journal := s.journal + [e])
    else s.(lost := s.lost + multiset{e})
  }

  /** What the done mark of a file that was not started leaves behind. */
  function Finished(s: State, path: string, started: bool): State {
    if path == "" || started then s else s.(bare := s.bare + multiset{path})
  }

  /** One step of thread `i`. */
  ghost predicate Step(s: State, s': State, i: nat) {
    i < |s.threads| &&
    match s.threads[i]
    case Idle =>
      || (exists path, extracting :: s' == Move(s, i, Asking(path, extracting)))
      || (exists path :: s' == Move(s, i, Leaving(path, false)).(failed := s.failed + {path}))  // calloc failed
    case Asking(path, extracting) =>
      if path == "" then s' == Move(s, i, Answered(path, extracting, false))
      else s' == Move(s, i, if s.phase.Inited? then Querying(path, extracting) else Trying(path, extracting))
    case Trying(path, extracting) =>
      if s.phase.Uninit? then s' == Move(s, i, Loading(path, extracting)).(phase := Initing)
      else s' == Move(s, i, Spinning(path, extracting))
    case Loading(path, extracting) =>
      exists q :: s' == Loaded(s, i, Publishing(path, extracting), q)
    case Publishing(path, extracting) =>
      s' == Move(s, i, Querying(path, extracting)).(phase := Inited)
    case Spinning(path, extracting) =>
      s' == if s.phase.Inited? then Move(s, i, Querying(path, extracting)) else s
    case Querying(path, extracting) =>
      var answer := InSet(s.quarantine, path);
      s' == Move(s, i, Answered(path, extracting, answer)).(answers := s.answers + [(path, answer)])
    case Answered(path, extracting, quarantined) =>
      if !extracting then s' == Move(s, i, Idle)
      else if quarantined then s' == Move(s, i, Leaving(path, false))
      else exists written :: s' == Marked(Move(s, i, Inside(path)), Start(path), written)
    case Inside(path) =>
      s' == Move(s, i, Leaving(path, true))
    case Leaving(path, started) =>
      exists written :: s' == Finished(Marked(Move(s, i, Idle), Done(path), written), path, started)
  }

  /** A run: any interleaving, stopped anywhere. */
  ghost predicate Run(trace: seq<State>) {
    && trace != [] && Init(trace[0])
    && forall n :: 0 <= n < |trace| - 1 ==> Steps(trace[n], trace[n + 1])
  }

  ghost predicate Steps(s: State, s': State) {
    exists i :: Step(s, s', i)
  }

  // ---- Loading once ----

  predicate Holds(t: Thread) { t.Loading? || t.Publishing? }

  /** The thread is consistent with the shared state. */
  ghost predicate ThreadOk(s: State, t: Thread) {
    && (t.Loading? ==> s.phase.Initing? && s.loads == 0)
    && (t.Publishing? ==> s.phase.Initing? && s.loads == 1)
    && (t.Querying? ==> s.phase.Inited? && t.path != "")
    && (t.Answered? && t.path != "" ==> s.phase.Inited? && t.quarantined == InSet(s.quarantine, t.path))
    && (t.Answered? && t.path == "" ==> !t.quarantined)
    && (t.Inside? && t.path != "" ==> s.phase.Inited? && !InSet(s.quarantine, t.path))
    && (t.Trying? || t.Spinning? || Holds(t) ==> t.path != "")
    && (t.Leaving? && t.started && t.path != "" ==> s.phase.Inited? && !InSet(s.quarantine, t.path))
    && (t.Leaving? && !t.started && t.path != "" ==>
          t.path in s.failed || (s.phase.Inited? && InSet(s.quarantine, t.path)))
  }

  ghost predicate LoadInv(s: State) {
    && (forall i :: 0 <= i < |s.threads| ==> ThreadOk(s, s.threads[i]))
    && (forall i, j :: 0 <= i < j < |s.threads| ==> !(Holds(s.threads[i]) && Holds(s.threads[j])))
    && (s.phase.Uninit? ==> s.loads == 0 && forall i :: 0 <= i < |s.threads| ==> !Holds(s.threads[i]))
    && (s.phase.Initing? ==> exists i :: 0 <= i < |s.threads| && Holds(s.threads[i]))
    && (s.phase.Inited? ==> s.loads == 1 && forall i :: 0 <= i < |s.threads| ==> !Holds(s.threads[i]))
    && (s.answers != [] ==> s.phase.Inited?)
    && (forall k :: 0 <= k < |s.answers| ==> s.answers[k].1 == InSet(s.quarantine, s.answers[k].0))
  }

  /** The shared part a thread's consistency depends on. */
  ghost predicate SameShared(s: State, s': State) {
    s'.phase == s.phase && s'.quarantine == s.quarantine && s'.loads == s.loads && s.failed <= s'.failed
  }

  /** A step that leaves the shared load state and the lock alone. */
  lemma QuietStep(s: State, s': State, i: nat, t: Thread)
    requires LoadInv(s) && i < |s.threads| && s'.threads == s.threads[i := t]
    requires SameShared(s, s') && Holds(t) == Holds(s.threads[i]) && ThreadOk(s', t)
    requires s'.answers == s.answers
             || (s.phase.Inited? && exists p :: s'.answers == s.answers + [(p, InSet(s.quarantine, p))])
    ensures LoadInv(s')
  {
    forall k | 0 <= k < |s'.threads| ensures ThreadOk(s', s'.threads[k]) {
      if k != i { assert ThreadOk(s, s.threads[k]); }
    }
    hide ThreadOk;
    if s.phase.Initing? {
      var k :| 0 <= k < |s.threads| && Holds(s.threads[k]);
      assert Holds(s'.threads[k]);
    }
  }

  /** Winning the compare-and-swap. */
  lemma WinStep(s: State, s': State, i: nat)
    requires LoadInv(s) && i < |s.threads| && s.threads[i].Trying? && s.phase.Uninit?
    requires s' == Move(s, i, Loading(s.threads[i].path, s.threads[i].extracting)).(phase := Initing)
    ensures LoadInv(s')
  {
    assert ThreadOk(s, s.threads[i]);
    forall k | 0 <= k < |s'.threads| ensures ThreadOk(s', s'.threads[k]) {
      if k != i { assert ThreadOk(s, s.threads[k]) && !Holds(s.threads[k]); }
    }
    assert Holds(s'.threads[i]);
    hide ThreadOk;
  }

  /** The load itself: only the holder of the lock is inside, so no consistency depends on the set yet. */
  lemma LoadStep(s: State, s': State, i: nat, q: Option<set<string>>)
    requires LoadInv(s) && i < |s.threads| && s.threads[i].Loading?
    requires s' == Loaded(s, i, Publishing(s.threads[i].path, s.threads[i].extracting), q)
    ensures LoadInv(s')
  {
    assert ThreadOk(s, s.threads[i]);
    forall k | 0 <= k < |s'.threads| ensures ThreadOk(s', s'.threads[k]) {
      if k != i { assert ThreadOk(s, s.threads[k]) && !Holds(s.threads[k]); }
    }
    assert Holds(s'.threads[i]);
    hide ThreadOk;
  }

  /** Publishing: the lock holder stores INITED. */
  lemma PublishStep(s: State, s': State, i: nat)
    requires LoadInv(s) && i < |s.threads| && s.threads[i].Publishing?
    requires s' == Move(s, i, Querying(s.threads[i].path, s.threads[i].extracting)).(phase := Inited)
    ensures LoadInv(s')
  {
    assert ThreadOk(s, s.threads[i]);
    forall k | 0 <= k < |s'.threads| ensures ThreadOk(s', s'.threads[k]) && !Holds(s'.threads[k]) {
      if k != i { assert ThreadOk(s, s.threads[k]) && !Holds(s.threads[k]); }
    }
    hide ThreadOk;
  }

  lemma LoadInvStep(s: State, s': State, i: nat)
    requires LoadInv(s) && Step(s, s', i)
    ensures LoadInv(s')
  {
    hide LoadInv, ThreadOk;
    match s.threads[i] {
      case Trying(path, extracting) =>
        if s.phase.Uninit? { WinStep(s, s', i); } else { LoserStep(s, s', i); }
      case Loading(path, extracting) =>
        var q :| s' == Loaded(s, i, Publishing(path, extracting), q);
        LoadStep(s, s', i, q);
      case Publishing(path, extracting) =>
        PublishStep(s, s', i);
      case Spinning(path, extracting) =>
        SpinStep(s, s', i);
      case Asking(path, extracting) =>
        AskStep(s, s', i);
      case Querying(path, extracting) =>
        QueryStep(s, s', i);
      case Idle =>
        IdleStep(s, s', i);
      case Answered(path, extracting, quarantined) =>
        AnsweredStep(s, s', i);
      case Inside(path) =>
        InsideStep(s, s', i);
      case Leaving(path, started) =>
        LeavingStep(s, s', i);
    }
  }

  lemma LoserStep(s: State, s': State, i: nat)
    requires LoadInv(s) && Step(s, s', i) && s.threads[i].Trying? && !s.phase.Uninit?
    ensures LoadInv(s')
  {
    assert ThreadOk(s, s.threads[i]);
    hide LoadInv;
    QuietStep(s, s', i, s'.threads[i]);
  }

  lemma SpinStep(s: State, s': State, i: nat)
    requires LoadInv(s) && Step(s, s', i) && s.threads[i].Spinning?
    ensures LoadInv(s')
  {
    assert ThreadOk(s, s.threads[i]);
    hide LoadInv;
    if s.phase.Inited? { QuietStep(s, s', i, s'.threads[i]); }
  }

  lemma AskStep(s: State, s': State, i: nat)
    requires LoadInv(s) && Step(s, s', i) && s.threads[i].Asking?
    ensures LoadInv(s')
  {
    assert ThreadOk(s, s.threads[i]);
    hide LoadInv;
    QuietStep(s, s', i, s'.threads[i]);
  }

  lemma QueryStep(s: State, s': State, i: nat)
    requires LoadInv(s) && Step(s, s', i) && s.threads[i].Querying?
    ensures LoadInv(s')
  {
    assert ThreadOk(s, s.threads[i]);
    hide LoadInv;
    QuietStep(s, s', i, s'.threads[i]);
  }

  lemma IdleStep(s: State, s': State, i: nat)
    requires LoadInv(s) && Step(s, s', i) && s.threads[i].Idle?
    ensures LoadInv(s')
  {
    hide LoadInv;
    QuietStep(s, s', i, s'.threads[i]);
  }

  lemma AnsweredStep(s: State, s': State, i: nat)
    requires LoadInv(s) && Step(s, s', i) && s.threads[i].Answered?
    ensures LoadInv(s')
  {
    assert ThreadOk(s, s.threads[i]);
    hide LoadInv;
    QuietStep(s, s', i, s'.threads[i]);
  }

  lemma InsideStep(s: State, s': State, i: nat)
    requires LoadInv(s) && Step(s, s', i) && s.threads[i].Inside?
    ensures LoadInv(s')
  {
    assert ThreadOk(s, s.threads[i]);
    hide LoadInv;
    QuietStep(s, s', i, s'.threads[i]);
  }

  lemma LeavingStep(s: State, s': State, i: nat)
    requires LoadInv(s) && Step(s, s', i) && s.threads[i].Leaving?
    ensures LoadInv(s')
  {
    hide LoadInv;
    QuietStep(s, s', i, Idle);
  }

  lemma InitInv(s: State)
    requires Init(s)
    ensures LoadInv(s)
  {}

  lemma {:induction false} LoadInvAlways(trace: seq<State>, n: nat)
    requires Run(trace) && n < |trace|
    ensures LoadInv(trace[n])
    decreases n
  {
    hide LoadInv, Step;
    if n == 0 {
      InitInv(trace[0]);
    } else {
      LoadInvAlways(trace, n - 1);
      assert Steps(trace[n - 1], trace[n - 1 + 1]);
      var i :| Step(trace[n - 1], trace[n], i);
      LoadInvStep(trace[n - 1], trace[n], i);
    }
  }

  /** Once published, the set never changes again. */
  lemma SetFixed(s: State, s': State, i: nat)
    requires LoadInv(s) && Step(s, s', i) && s.phase.Inited?
    ensures s'.phase.Inited? && s'.quarantine == s.quarantine
  {
    assert ThreadOk(s, s.threads[i]) && !Holds(s.threads[i]);
  }

  lemma {:induction false} SetFixedForever(trace: seq<State>, m: nat, n: nat)
    requires Run(trace) && m <= n < |trace| && trace[m].phase.Inited?
    ensures trace[n].phase.Inited? && trace[n].quarantine == trace[m].quarantine
    decreases n
  {
    hide LoadInv, Step;
    if m < n {
      SetFixedForever(trace, m, n - 1);
      LoadInvAlways(trace, n - 1);
      assert Steps(trace[n - 1], trace[n - 1 + 1]);
      var i :| Step(trace[n - 1], trace[n], i);
      SetFixed(trace[n - 1], trace[n], i);
    }
  }

  /** Over every interleaving: the set is loaded at most once, and exactly once as soon as any question
      has been answered; nothing is answered before it is published; and all answers, of all threads,
      agree with the one published set. */
  lemma LoadedOnceAnswersAgree(trace: seq<State>, m: nat, n: nat)
    requires Run(trace) && m <= n < |trace|
    ensures trace[n].loads <= 1
    ensures trace[m].answers != [] ==> trace[m].phase.Inited? && trace[m].loads == 1
    ensures trace[m].answers != [] ==> trace[n].quarantine == trace[m].quarantine
    ensures forall k :: 0 <= k < |trace[n].answers| ==>
              (trace[n].answers[k].1 <==>
                 trace[n].quarantine.Some? && trace[n].answers[k].0 in trace[n].quarantine.value)
  {
    LoadInvAlways(trace, m);
    LoadInvAlways(trace, n);
    if trace[m].phase.Inited? { SetFixedForever(trace, m, n); }
    if trace[n].phase.Initing? {
      var i :| 0 <= i < |trace[n].threads| && Holds(trace[n].threads[i]);
      assert ThreadOk(trace[n], trace[n].threads[i]);
    }
  }

  // ---- The journal ----

  ghost function Count(journal: seq<Event>, e: Event): nat {
    if journal == [] then 0
    else Count(journal[..|journal| - 1], e) + if journal[|journal| - 1] == e then 1 else 0
  }

  lemma CountAppend(journal: seq<Event>, e: Event, f: Event)
    ensures Count(journal + [e], f) == Count(journal, f) + if e == f then 1 else 0
  {
    assert (journal + [e])[..|journal|] == journal;
  }

  /** The thread has started `path` and not yet marked it done. */
  predicate Working(t: Thread, path: string) {
    (t.Inside? && t.path == path) || (t.Leaving? && t.started && t.path == path)
  }

  ghost function Workers(threads: seq<Thread>, path: string): nat {
    if threads == [] then 0
    else Workers(threads[..|threads| - 1], path) + if Working(threads[|threads| - 1], path) then 1 else 0
  }

  lemma {:induction false} WorkersUpdate(threads: seq<Thread>, i: nat, t: Thread, path: string)
    requires i < |threads|
    ensures Workers(threads[i := t], path) + (if Working(threads[i], path) then 1 else 0)
            == Workers(threads, path) + (if Working(t, path) then 1 else 0)
  {
    var last := |threads| - 1;
    if i < last {
      assert threads[i := t][..last] == threads[..last][i := t];
      WorkersUpdate(threads[..last], i, t, path);
    } else {
      assert threads[i := t][..last] == threads[..last];
    }
  }

  /** Starts, written or lost, and files finished without a start together match dones, written or lost,
      and workers inside; only failed or quarantined files are finished without a start; only files
      outside the published set are started. */
  ghost predicate JournalInv(s: State, path: string) {
    && Count(s.journal, Start(path)) + s.lost[Start(path)] + s.bare[path]
       == Count(s.journal, Done(path)) + s.lost[Done(path)] + Workers(s.threads, path)
    && (s.bare[path] > 0 ==> path in s.failed || (s.phase.Inited? && InSet(s.quarantine, path)))
    && (Count(s.journal, Start(path)) + s.lost[Start(path)] > 0 ==> s.phase.Inited? && !InSet(s.quarantine, path))
  }

  /** Marks of one kind, written or lost. */
  ghost function Marks(s: State, e: Event): nat { Count(s.journal, e) + s.lost[e] }

  lemma MarksStep(s: State, s': State, e: Event, written: bool, f: Event)
    requires s' == Marked(s, e, written) && e.path != ""
    ensures Marks(s', f) == Marks(s, f) + if e == f then 1 else 0
  {
    hide Count;
    CountAppend(s.journal, e, f);
  }

  /** What a step may do to the account of one file: add starts, dones, dones without a start. */
  lemma Balance(s: State, s': State, path: string, starts: nat, dones: nat, bare: nat, w0: nat, w1: nat)
    requires JournalInv(s, path)
    requires Marks(s', Start(path)) == Marks(s, Start(path)) + starts
    requires Marks(s', Done(path)) == Marks(s, Done(path)) + dones
    requires s'.bare[path] == s.bare[path] + bare
    requires Workers(s'.threads, path) + w0 == Workers(s.threads, path) + w1
    requires starts + bare + w0 == dones + w1
    requires s.failed <= s'.failed && (s.phase.Inited? ==> s'.phase.Inited? && s'.quarantine == s.quarantine)
    requires bare > 0 ==> path in s.failed || (s.phase.Inited? && InSet(s.quarantine, path))
    requires starts > 0 ==> s.phase.Inited? && !InSet(s.quarantine, path)
    ensures JournalInv(s', path)
  {
    hide Count, Workers;
  }

  function One(b: bool): nat { if b then 1 else 0 }

  /** Entering the extraction: the start mark. */
  lemma StartMark(s: State, s': State, i: nat, p: string, written: bool, path: string)
    requires path != "" && JournalInv(s, path) && i < |s.threads| && s.threads[i].Answered?
    requires s' == Marked(Move(s, i, Inside(p)), Start(p), written)
    requires p == path ==> s.phase.Inited? && !InSet(s.quarantine, path)
    ensures JournalInv(s', path)
  {
    hide JournalInv, Count, Workers, InSet;
    WorkersUpdate(s.threads, i, Inside(p), path);
    if p != "" {
      MarksStep(Move(s, i, Inside(p)), s', Start(p), written, Start(path));
      MarksStep(Move(s, i, Inside(p)), s', Start(p), written, Done(path));
    }
    Balance(s, s', path, One(p == path), 0, 0, 0, One(p == path));
  }

  /** Leaving: the done mark, and its account. */
  lemma DoneMark(s: State, s': State, i: nat, p: string, started: bool, written: bool, path: string)
    requires path != "" && JournalInv(s, path) && i < |s.threads| && s.threads[i] == Leaving(p, started)
    requires s' == Finished(Marked(Move(s, i, Idle), Done(p), written), p, started)
    requires p == path && !started ==> path in s.failed || (s.phase.Inited? && InSet(s.quarantine, path))
    ensures JournalInv(s', path)
  {
    hide JournalInv, Count, Workers, InSet;
    WorkersUpdate(s.threads, i, Idle, path);
    var marked := Marked(Move(s, i, Idle), Done(p), written);
    if p != "" {
      MarksStep(Move(s, i, Idle), marked, Done(p), written, Start(path));
      MarksStep(Move(s, i, Idle), marked, Done(p), written, Done(path));
    }
    Balance(s, s', path, 0, One(p == path), One(p == path && !started), One(p == path && started), 0);
  }

  /** Every other step leaves the journal alone and nobody starts or stops working. */
  lemma NoMark(s: State, s': State, i: nat, t: Thread, path: string)
    requires JournalInv(s, path) && i < |s.threads| && s'.threads == s.threads[i := t]
    requires s'.journal == s.journal && s'.lost == s.lost && s'.bare == s.bare && s.failed <= s'.failed
    requires s.phase.Inited? ==> s'.phase.Inited? && s'.quarantine == s.quarantine
    requires Working(t, path) == Working(s.threads[i], path)
    ensures JournalInv(s', path)
  {
    hide JournalInv, Count, Workers, InSet, Working;
    WorkersUpdate(s.threads, i, t, path);
    Balance(s, s', path, 0, 0, 0, 0, 0);
  }

  lemma EnterStep(s: State, s': State, i: nat, path: string)
    requires path != "" && LoadInv(s) && JournalInv(s, path) && Step(s, s', i) && s.threads[i].Answered?
    ensures JournalInv(s', path)
  {
    assert ThreadOk(s, s.threads[i]);
    hide LoadInv, JournalInv;
    var p := s.threads[i].path;
    if s.threads[i].extracting && !s.threads[i].quarantined {
      var written :| s' == Marked(Move(s, i, Inside(p)), Start(p), written);
      StartMark(s, s', i, p, written, path);
    } else {
      NoMark(s, s', i, s'.threads[i], path);
    }
  }

  lemma LeaveStep(s: State, s': State, i: nat, path: string)
    requires path != "" && LoadInv(s) && JournalInv(s, path) && Step(s, s', i) && s.threads[i].Leaving?
    ensures JournalInv(s', path)
  {
    assert ThreadOk(s, s.threads[i]);
    hide LoadInv, JournalInv;
    var p, started := s.threads[i].path, s.threads[i].started;
    var written :| s' == Finished(Marked(Move(s, i, Idle), Done(p), written), p, started);
    DoneMark(s, s', i, p, started, written, path);
  }

  /** No other step writes a mark or changes what is published. */
  lemma OtherSteps(s: State, s': State, i: nat)
    requires LoadInv(s) && Step(s, s', i) && !s.threads[i].Answered? && !s.threads[i].Leaving?
    ensures s'.threads == s.threads[i := s'.threads[i]] && s'.journal == s.journal && s'.lost == s.lost
    ensures s'.bare == s.bare && s.failed <= s'.failed
    ensures forall path :: Working(s'.threads[i], path) == Working(s.threads[i], path)
  {
    hide LoadInv;
  }

  lemma JournalInvStep(s: State, s': State, i: nat, path: string)
    requires path != "" && LoadInv(s) && JournalInv(s, path) && Step(s, s', i)
    ensures JournalInv(s', path)
  {
    if s.threads[i].Answered? {
      EnterStep(s, s', i, path);
    } else if s.threads[i].Leaving? {
      LeaveStep(s, s', i, path);
    } else {
      if s.phase.Inited? { SetFixed(s, s', i); }
      OtherSteps(s, s', i);
      assert i < |s.threads|;
      hide LoadInv, JournalInv, Step, Working;
      NoMark(s, s', i, s'.threads[i], path);
    }
  }

  lemma {:induction false} JournalInvAlways(trace: seq<State>, n: nat, path: string)
    requires Run(trace) && n < |trace| && path != ""
    ensures JournalInv(trace[n], path)
    decreases n
  {
    hide LoadInv, Step, JournalInv;
    if n == 0 {
      JournalAtStart(trace[0], path);
    } else {
      JournalInvAlways(trace, n - 1, path);
      LoadInvAlways(trace, n - 1);
      assert Steps(trace[n - 1], trace[n - 1 + 1]);
      var i :| Step(trace[n - 1], trace[n], i);
      JournalInvStep(trace[n - 1], trace[n], i, path);
    }
  }

  lemma JournalAtStart(s: State, path: string)
    requires Init(s)
    ensures JournalInv(s, path)
  {
    NobodyWorking(s.threads, path);
  }

  lemma {:induction false} NobodyWorking(threads: seq<Thread>, path: string)
    requires forall i :: 0 <= i < |threads| ==> !Working(threads[i], path)
    ensures Workers(threads, path) == 0
  {
    if threads != [] { NobodyWorking(threads[..|threads| - 1], path); }
  }

  /** At every point of every run: a file of the published set has no start mark; for any other file
      whose result never failed to be allocated, if no mark of it was lost, starts minus dones is the
      number of workers inside; and in general exactly when what was lost and what was finished without
      a start cancel out. */
  lemma JournalBalances(trace: seq<State>, n: nat, path: string)
    requires Run(trace) && n < |trace| && path != ""
    ensures var s := trace[n];
            var starts, dones := Count(s.journal, Start(path)), Count(s.journal, Done(path));
            var quarantined := s.phase.Inited? && s.quarantine.Some? && path in s.quarantine.value;
            && (quarantined ==> starts == 0) && (path !in s.failed && !quarantined ==> s.bare[path] == 0)
            && (starts == dones + Workers(s.threads, path)
                <==> s.lost[Start(path)] + s.bare[path] == s.lost[Done(path)])
  {
    JournalInvAlways(trace, n, path);
  }

  /** No mark, written or lost, is for the empty path. */
  ghost predicate NoEmptyMark(journal: seq<Event>, lost: multiset<Event>) {
    forall e: Event :: e in journal || e in lost ==> e.path != ""
  }

  lemma MarkedNotEmpty(s: State, e: Event, written: bool)
    requires NoEmptyMark(s.journal, s.lost)
    ensures NoEmptyMark(Marked(s, e, written).journal, Marked(s, e, written).lost)
  {}

  lemma StepNotEmpty(s: State, s': State, i: nat)
    requires LoadInv(s) && Step(s, s', i) && NoEmptyMark(s.journal, s.lost)
    ensures NoEmptyMark(s'.journal, s'.lost)
  {
    if s.threads[i].Answered? {
      hide LoadInv;
      var p := s.threads[i].path;
      if s.threads[i].extracting && !s.threads[i].quarantined {
        var written :| s' == Marked(Move(s, i, Inside(p)), Start(p), written);
        MarkedNotEmpty(Move(s, i, Inside(p)), Start(p), written);
      }
    } else if s.threads[i].Leaving? {
      hide LoadInv;
      var p, started := s.threads[i].path, s.threads[i].started;
      var written :| s' == Finished(Marked(Move(s, i, Idle), Done(p), written), p, started);
      MarkedNotEmpty(Move(s, i, Idle), Done(p), written);
    } else {
      OtherSteps(s, s', i);
    }
  }

  /** A thread without a path asks nothing of the set and leaves no mark. */
  lemma {:induction false} EmptyLeavesNoMark(trace: seq<State>, n: nat)
    requires Run(trace) && n < |trace|
    ensures forall e: Event :: e in trace[n].journal || e in trace[n].lost ==> e.path != ""
    ensures forall k :: 0 <= k < |trace[n].answers| ==> trace[n].answers[k].0 != ""
    decreases n
  {
    hide LoadInv, Step, NoEmptyMark;
    if n == 0 {
      NoneAtStart(trace[0]);
    } else {
      EmptyLeavesNoMark(trace, n - 1);
      LoadInvAlways(trace, n - 1);
      assert Steps(trace[n - 1], trace[n - 1 + 1]);
      var i :| Step(trace[n - 1], trace[n], i);
      EmptyStep(trace[n - 1], trace[n], i);
    }
  }

  lemma NoneAtStart(s: State)
    requires Init(s)
    ensures s.journal == [] && s.lost == multiset{} && s.answers == []
  {}

  lemma EmptyStep(s: State, s': State, i: nat)
    requires LoadInv(s) && Step(s, s', i)
    requires forall e: Event :: e in s.journal || e in s.lost ==> e.path != ""
    requires forall k :: 0 <= k < |s.answers| ==> s.answers[k].0 != ""
    ensures forall e: Event :: e in s'.journal || e in s'.lost ==> e.path != ""
    ensures forall k :: 0 <= k < |s'.answers| ==> s'.answers[k].0 != ""
  {
    StepNotEmpty(s, s', i);
    assert NoEmptyMark(s'.journal, s'.lost);
    AnswersStep(s, s', i);
  }

  lemma AnswersStep(s: State, s': State, i: nat)
    requires LoadInv(s) && Step(s, s', i)
    requires forall k :: 0 <= k < |s.answers| ==> s.answers[k].0 != ""
    ensures forall k :: 0 <= k < |s'.answers| ==> s'.answers[k].0 != ""
  {
    assert ThreadOk(s, s.threads[i]);
    hide LoadInv;
  }

  // ---- The suspects: what the supervisor reads from the journal ----

  function Removed(paths: seq<string>, p: string): seq<string> {
    if paths == [] then [] else if paths[0] == p then paths[1..] else [paths[0]] + Removed(paths[1..], p)
  }

  /** `supervisor_read_suspects`, mark by mark: a start opens a path that is not open, a done mark closes
      the path, whoever wrote it. */
  function Open(journal: seq<Event>): seq<string> {
    if journal == [] then []
    else
      var before := Open(journal[..|journal| - 1]);
      match journal[|journal| - 1]
      case Start(p) => if p in before then before else before + [p]
      case Done(p) => Removed(before, p)
  }

  /** The scan for an open path; its position, or the number of open paths. */
  method FindOpen(open: seq<string>, p: string) returns (i: nat)
    ensures i <= |open| && (i < |open| ==> open[i] == p) && forall k :: 0 <= k < i ==> open[k] != p
  {
    i := 0;
    while i < |open| && open[i] != p
      invariant i <= |open| && forall k :: 0 <= k < i ==> open[k] != p
    {
      i := i + 1;
    }
  }

  method ReadSuspects(journal: seq<Event>) returns (open: seq<string>)
    ensures open == Open(journal)
  {
    hide Removed;
    open := [];
    for k := 0 to |journal|
      invariant open == Open(journal[..k])
    {
      assert journal[..k + 1][..k] == journal[..k];
      match journal[k] {
        case Start(p) =>
          var i := FindOpen(open, p);
          if i == |open| {
            open := open + [p];
          }
        case Done(p) =>
          var i := FindOpen(open, p);
          RemovedAt(open, p, i);
          if i < |open| {
            open := open[..i] + open[i + 1..];
          }
      }
    }
    assert journal[..|journal|] == journal;
  }

  lemma {:induction false} RemovedAt(paths: seq<string>, p: string, i: nat)
    requires i <= |paths| && (i < |paths| ==> paths[i] == p) && forall k :: 0 <= k < i ==> paths[k] != p
    ensures Removed(paths, p) == if i < |paths| then paths[..i] + paths[i + 1..] else paths
  {
    if i > 0 {
      var rest := paths[1..];
      RemovedAt(rest, p, i - 1);
      if i < |paths| {
        assert rest[i - 1] == p;
        WithoutOne(paths, i);
      }
    }
  }

  lemma WithoutOne(paths: seq<string>, i: nat)
    requires 0 < i < |paths|
    ensures [paths[0]] + (paths[1..][..i - 1] + paths[1..][i..]) == paths[..i] + paths[i + 1..]
  {}

  lemma {:induction false} RemovedExactly(paths: seq<string>, p: string)
    requires Distinct(paths)
    ensures Distinct(Removed(paths, p))
    ensures forall q :: q in Removed(paths, p) <==> q in paths && q != p
  {
    if paths != [] && paths[0] != p {
      var rest := paths[1..];
      RemovedExactly(rest, p);
      assert forall q :: q in paths <==> q == paths[0] || q in rest;
      assert paths[0] !in rest;
      var r := Removed(rest, p);
      forall k | 0 <= k < |r| ensures r[k] != paths[0] { assert r[k] in r; }
    }
  }

  /** One more mark, for one path. */
  lemma OpenAppend(journal: seq<Event>, e: Event, p: string)
    ensures Distinct(Open(journal))
    ensures p in Open(journal + [e]) <==> if e.path == p then e.Start? else p in Open(journal)
  {
    hide Removed, Distinct;
    OpenDistinct(journal);
    assert (journal + [e])[..|journal|] == journal;
    if e.Done? { RemovedExactly(Open(journal), e.path); }
  }

  lemma {:induction false} OpenDistinct(journal: seq<Event>)
    ensures Distinct(Open(journal))
  {
    hide Removed;
    if journal != [] {
      OpenDistinct(journal[..|journal| - 1]);
      if journal[|journal| - 1].Done? {
        RemovedExactly(Open(journal[..|journal| - 1]), journal[|journal| - 1].path);
      }
    }
  }

  /** The last mark of a path in the journal. */
  function LastMark(journal: seq<Event>, p: string): Option<Event> {
    if journal == [] then None
    else if journal[|journal| - 1].path == p then Some(journal[|journal| - 1])
    else LastMark(journal[..|journal| - 1], p)
  }

  /** The suspects are the paths whose last mark is a start, each once. */
  lemma {:induction false} SuspectsByLastMark(journal: seq<Event>, p: string)
    ensures p in Open(journal) <==> LastMark(journal, p) == Some(Start(p))
    ensures Distinct(Open(journal))
  {
    hide Removed, Distinct, Open;
    OpenDistinct(journal);
    if journal == [] {
      NothingOpen();
    } else {
      var before := journal[..|journal| - 1];
      SuspectsByLastMark(before, p);
      OpenAppend(before, journal[|journal| - 1], p);
      assert before + [journal[|journal| - 1]] == journal;
    }
  }

  lemma NothingOpen()
    ensures Open([]) == []
  {}

  /** The position of the start mark that opened a suspect: the first since its last done mark. */
  function OpenSince(journal: seq<Event>, p: string): (k: nat)
    requires p in Open(journal)
    ensures k < |journal| && journal[k] == Start(p) && p !in Open(journal[..k])
    ensures forall l :: k < l < |journal| ==> journal[l] != Done(p)
  {
    hide Removed, Distinct;
    var last := |journal| - 1;
    var before := journal[..last];
    assert before + [journal[last]] == journal;
    OpenAppend(before, journal[last], p);
    if p !in Open(before) then last
    else
      var k := OpenSince(before, p);
      assert before[..k] == journal[..k];
      k
  }

  /** The suspects are listed by the start that opened them, oldest first. */
  lemma {:induction false} OldestFirst(journal: seq<Event>, i: nat, j: nat)
    requires i < j < |Open(journal)|
    ensures OpenSince(journal, Open(journal)[i]) < OpenSince(journal, Open(journal)[j])
  {
    hide Distinct, Removed, Open;
    if journal == [] {
      NothingOpen();
    } else {
      var last := |journal| - 1;
      var before, open := journal[..last], Open(journal);
      assert before + [journal[last]] == journal;
      OpenOrder(before, journal[last], i, j);
      OpenDistinct(before);
      OpenDistinct(journal);
      SinceBefore(before, journal[last], open[i]);
      SinceBefore(before, journal[last], open[j]);
      if open[j] in Open(before) {
        var k, l := OpenAt(before, open[i], open[j], journal[last], i, j);
        OldestFirst(before, k, l);
      }
    }
  }

  lemma SinceBefore(journal: seq<Event>, e: Event, p: string)
    requires p in Open(journal + [e])
    ensures OpenSince(journal + [e], p) == if p in Open(journal) then OpenSince(journal, p) else |journal|
  {
    hide Removed, Open;
    assert (journal + [e])[..|journal|] == journal;
  }

  /** Of two suspects in a row the first was one before. */
  lemma OpenOrder(journal: seq<Event>, e: Event, i: nat, j: nat)
    requires i < j < |Open(journal + [e])|
    ensures Open(journal + [e])[i] in Open(journal)
  {
    hide Removed, Distinct;
    var before, after := Open(journal), Open(journal + [e]);
    assert (journal + [e])[..|journal|] == journal;
    OpenDistinct(journal);
    if e.Done? {
      RemovedExactly(before, e.path);
      assert after[i] in after;
    }
  }

  /** A mark does not change the order of the suspects that stay. */
  lemma OpenAt(journal: seq<Event>, p: string, q: string, e: Event, i: nat, j: nat) returns (k: nat, l: nat)
    requires i < j < |Open(journal + [e])| && Open(journal + [e])[i] == p && Open(journal + [e])[j] == q
    requires p in Open(journal) && q in Open(journal)
    ensures k < l < |Open(journal)| && Open(journal)[k] == p && Open(journal)[l] == q
  {
    hide Distinct, Removed;
    var before := Open(journal);
    assert (journal + [e])[..|journal|] == journal;
    OpenDistinct(journal);
    if e.Start? {
      k, l := i, j;
      if j == |before| {
        assert false;
      }
    } else {
      k, l := RemovedOrder(before, e.path, i, j);
    }
  }

  lemma RemovedOrder(paths: seq<string>, p: string, i: nat, j: nat) returns (k: nat, l: nat)
    requires i < j < |Removed(paths, p)|
    ensures k < l < |paths| && paths[k] == Removed(paths, p)[i] && paths[l] == Removed(paths, p)[j]
  {
    hide Removed;
    var n := if p in paths then Position(paths, p) else |paths|;
    RemovedAt(paths, p, n);
    k, l := if i < n then i else i + 1, if j < n then j else j + 1;
  }

  function Position(paths: seq<string>, p: string): (n: nat)
    requires p in paths
    ensures n < |paths| && paths[n] == p && forall k :: 0 <= k < n ==> paths[k] != p
  {
    if paths[0] == p then 0 else 1 + Position(paths[1..], p)
  }

  // ---- Suspects and workers ----

  /** The mark is written or lost. */
  ghost predicate MarkStep(s: State, s': State, e: Event) {
    || (s'.journal == s.journal + [e] && s'.lost == s.lost)
    || (s'.journal == s.journal && s'.lost == s.lost + multiset{e})
  }

  /** A call of the extraction, from the question on. */
  predicate Extracting(t: Thread) {
    match t
    case Idle => false
    case Inside(_) => true
    case Leaving(_, _) => true
    case Answered(_, extracting, _) => extracting
    case Asking(_, extracting) => extracting
    case Trying(_, extracting) => extracting
    case Loading(_, extracting) => extracting
    case Publishing(_, extracting) => extracting
    case Spinning(_, extracting) => extracting
    case Querying(_, extracting) => extracting
  }

  /** The extraction of a file goes on with the same file, or returns with its done mark. */
  lemma ReturnsWithDone(s: State, s': State, i: nat)
    requires Step(s, s', i) && Extracting(s.threads[i])
    ensures i < |s.threads| == |s'.threads|
    ensures s'.threads[i].Idle? || (Extracting(s'.threads[i]) && s'.threads[i].path == s.threads[i].path)
    ensures s'.threads[i].Idle? && s.threads[i].path != "" ==> MarkStep(s, s', Done(s.threads[i].path))
  {
    if s.threads[i].Leaving? {
      hide Step, MarkStep;
      LeavingReturns(s, s', i);
    } else if s.threads[i].Answered? && !s.threads[i].quarantined {
      hide MarkStep;
      var p := s.threads[i].path;
      var written :| s' == Marked(Move(s, i, Inside(p)), Start(p), written);
    }
  }

  lemma LeavingReturns(s: State, s': State, i: nat)
    requires Step(s, s', i) && s.threads[i].Leaving?
    ensures |s'.threads| == |s.threads| && s'.threads[i].Idle?
    ensures s.threads[i].path != "" ==> MarkStep(s, s', Done(s.threads[i].path))
  {
    var p, started := s.threads[i].path, s.threads[i].started;
    var written :| s' == Finished(Marked(Move(s, i, Idle), Done(p), written), p, started);
    hide Step, Marked;
    MarkedEffect(Move(s, i, Idle), Marked(Move(s, i, Idle), Done(p), written), Done(p), written, p);
  }

  /** At every point of every run, no thread is inside a file of the published set. */
  lemma QuarantinedNeverInside(trace: seq<State>, n: nat, i: nat)
    requires Run(trace) && n < |trace| && i < |trace[n].threads| && trace[n].threads[i].Inside?
    ensures trace[n].threads[i].path != "" ==>
              trace[n].phase.Inited?
              && (trace[n].quarantine.None? || trace[n].threads[i].path !in trace[n].quarantine.value)
  {
    LoadInvAlways(trace, n);
    assert ThreadOk(trace[n], trace[n].threads[i]);
  }

  /** A thread is inside a file or about to write its done mark. */
  predicate Handles(t: Thread, path: string) { (t.Inside? || t.Leaving?) && t.path == path }

  ghost predicate Enters(s: State, s': State, i: nat, path: string) {
    && i < |s.threads| && s.threads[i].Answered? && s'.threads == s.threads[i := Inside(path)]
    && MarkStep(s, s', Start(path))
  }

  ghost predicate Leaves(s: State, s': State, i: nat, path: string) {
    && i < |s.threads| && s.threads[i].Leaving? && s.threads[i].path == path && s'.threads == s.threads[i := Idle]
    && MarkStep(s, s', Done(path))
  }

  /** A step that neither enters nor leaves this file. */
  ghost predicate Apart(s: State, s': State, i: nat, path: string) {
    && i < |s.threads| && |s'.threads| == |s.threads| && s'.threads == s.threads[i := s'.threads[i]]
    && Working(s'.threads[i], path) == Working(s.threads[i], path) && SameMarks(s, s', path)
  }

  lemma StepEffect(s: State, s': State, i: nat, path: string)
    requires LoadInv(s) && Step(s, s', i) && path != ""
    ensures Enters(s, s', i, path) || Leaves(s, s', i, path) || Apart(s, s', i, path)
  {
    if s.threads[i].Answered? {
      AnsweredEffect(s, s', i, path);
    } else if s.threads[i].Leaving? {
      LeavingEffect(s, s', i, path);
    } else {
      OtherSteps(s, s', i);
    }
  }

  lemma AnsweredEffect(s: State, s': State, i: nat, path: string)
    requires Step(s, s', i) && path != "" && s.threads[i].Answered?
    ensures Enters(s, s', i, path) || Apart(s, s', i, path)
  {
    var p := s.threads[i].path;
    if s.threads[i].extracting && !s.threads[i].quarantined {
      var written :| s' == Marked(Move(s, i, Inside(p)), Start(p), written);
      MarkedEffect(Move(s, i, Inside(p)), s', Start(p), written, path);
    }
  }

  lemma MarkedEffect(s: State, s': State, e: Event, written: bool, path: string)
    requires s' == Marked(s, e, written)
    ensures s'.threads == s.threads
    ensures e.path != "" ==> MarkStep(s, s', e)
    ensures e.path != path ==> SameMarks(s, s', path)
  {}

  /** Nothing was written or lost for this file. */
  ghost predicate SameMarks(s: State, s': State, path: string) {
    && s'.lost[Start(path)] == s.lost[Start(path)] && s'.lost[Done(path)] == s.lost[Done(path)]
    && (s'.journal == s.journal || exists e: Event :: e.path != path && s'.journal == s.journal + [e])
  }

  lemma LeavingEffect(s: State, s': State, i: nat, path: string)
    requires Step(s, s', i) && path != "" && s.threads[i].Leaving?
    ensures Leaves(s, s', i, path) || Apart(s, s', i, path)
  {
    var p, started := s.threads[i].path, s.threads[i].started;
    var written :| s' == Finished(Marked(Move(s, i, Idle), Done(p), written), p, started);
    hide Step;
    LeavingMarks(s, s', i, p, started, written, path);
  }

  lemma LeavingMarks(s: State, s': State, i: nat, p: string, started: bool, written: bool, path: string)
    requires path != "" && i < |s.threads| && s.threads[i] == Leaving(p, started)
    requires s' == Finished(Marked(Move(s, i, Idle), Done(p), written), p, started)
    ensures Leaves(s, s', i, path) || Apart(s, s', i, path)
  {
    var moved := Move(s, i, Idle);
    var marked := Marked(moved, Done(p), written);
    MarkedEffect(moved, marked, Done(p), written, path);
    hide Marked;
    assert moved.journal == s.journal && moved.lost == s.lost;
    assert s'.journal == marked.journal && s'.lost == marked.lost && s'.threads == s.threads[i := Idle];
    if p == path {
      assert Leaves(s, s', i, path);
    } else {
      assert SameMarks(s, s', path);
    }
  }

  /** Which of the three a step of a run is. */
  lemma RunEffect(trace: seq<State>, n: nat, path: string) returns (i: nat)
    requires Run(trace) && n + 1 < |trace| && path != ""
    ensures var s, s' := trace[n], trace[n + 1];
            Enters(s, s', i, path) || Leaves(s, s', i, path) || Apart(s, s', i, path)
  {
    hide LoadInv, Step, Enters, Leaves, Apart;
    LoadInvAlways(trace, n);
    assert Steps(trace[n], trace[n + 1]);
    i :| Step(trace[n], trace[n + 1], i);
    StepEffect(trace[n], trace[n + 1], i, path);
  }

  /** What a step does to the suspects. */
  lemma OpenEffect(s: State, s': State, i: nat, path: string)
    ensures Enters(s, s', i, path) ==>
              (path in Open(s'.journal) <==> path in Open(s.journal) || s'.lost == s.lost)
    ensures Leaves(s, s', i, path) ==>
              (path in Open(s'.journal) <==> path in Open(s.journal) && s'.lost != s.lost)
    ensures Apart(s, s', i, path) ==> (path in Open(s'.journal) <==> path in Open(s.journal))
  {
    hide Open, Working;
    forall e ensures path in Open(s.journal + [e]) <==> if e.path == path then e.Start? else path in Open(s.journal) {
      OpenAppend(s.journal, e, path);
    }
    OneMore(s.lost, Start(path));
    OneMore(s.lost, Done(path));
  }

  lemma OneMore(m: multiset<Event>, e: Event)
    ensures m + multiset{e} != m
  {
    assert (m + multiset{e})[e] == m[e] + 1;
  }

  lemma WorkersEffect(s: State, s': State, i: nat, path: string)
    ensures Enters(s, s', i, path) ==> Workers(s'.threads, path) == Workers(s.threads, path) + 1
    ensures Leaves(s, s', i, path) ==>
              Workers(s'.threads, path) + One(s.threads[i].started) == Workers(s.threads, path)
    ensures Apart(s, s', i, path) ==> Workers(s'.threads, path) == Workers(s.threads, path)
  {
    hide Workers;
    if i < |s.threads| && i < |s'.threads| { WorkersUpdate(s.threads, i, s'.threads[i], path); }
  }

  /** At every point of every run a suspect is being worked on, unless a done mark of it was lost. */
  lemma {:induction false} SuspectsAreInFlight(trace: seq<State>, n: nat, path: string)
    requires Run(trace) && n < |trace| && path != "" && trace[n].lost[Done(path)] == 0
    ensures path in Open(trace[n].journal) ==> Workers(trace[n].threads, path) > 0
    decreases n
  {
    hide Open, Workers, Working, Steps;
    if n == 0 {
      NothingOpen();
    } else {
      var s, s' := trace[n - 1], trace[n];
      var i := RunEffect(trace, n - 1, path);
      OpenEffect(s, s', i, path);
      WorkersEffect(s, s', i, path);
      if Leaves(s, s', i, path) {
        assert s'.lost == s.lost + multiset{Done(path)} ==> s'.lost[Done(path)] > 0;
      } else {
        SuspectsAreInFlight(trace, n - 1, path);
      }
    }
  }

  /** No two threads have been at the file at once. */
  ghost predicate OneAtATime(trace: seq<State>, n: nat, path: string)
    requires n < |trace|
  {
    forall m, i, j :: 0 <= m <= n && 0 <= i < j < |trace[m].threads| ==>
      !(Handles(trace[m].threads[i], path) && Handles(trace[m].threads[j], path))
  }

  /** When the only thread at the file leaves, nobody works on it. */
  lemma LastLeaves(s: State, s': State, i: nat, path: string)
    requires Leaves(s, s', i, path)
    requires forall a, b :: 0 <= a < b < |s.threads| ==> !(Handles(s.threads[a], path) && Handles(s.threads[b], path))
    ensures Workers(s'.threads, path) == 0
  {
    assert Handles(s.threads[i], path);
    forall j | 0 <= j < |s'.threads| ensures !Working(s'.threads[j], path) {
      assert j != i ==> s'.threads[j] == s.threads[j] && !Handles(s.threads[j], path);
    }
    NobodyWorking(s'.threads, path);
  }

  /** If no two threads are ever at one file at once and no start mark of it is lost, it is a suspect
      whenever it is being worked on. */
  lemma {:induction false} InFlightAreSuspects(trace: seq<State>, n: nat, path: string)
    requires Run(trace) && n < |trace| && path != "" && OneAtATime(trace, n, path)
    requires trace[n].lost[Start(path)] == 0
    ensures Workers(trace[n].threads, path) > 0 ==> path in Open(trace[n].journal)
    decreases n
  {
    hide Open, Workers, Steps;
    if n == 0 {
      NobodyWorking(trace[0].threads, path);
    } else {
      var s, s' := trace[n - 1], trace[n];
      var i := RunEffect(trace, n - 1, path);
      OpenEffect(s, s', i, path);
      WorkersEffect(s, s', i, path);
      if Enters(s, s', i, path) {
        assert s'.lost == s.lost + multiset{Start(path)} ==> s'.lost[Start(path)] > 0;
      } else if Leaves(s, s', i, path) {
        LastLeaves(s, s', i, path);
      } else {
        InFlightAreSuspects(trace, n - 1, path);
      }
    }
  }

  /** So under the same conditions, with no mark of the file lost, the suspects are exactly the files
      being worked on. */
  lemma SuspectsExactly(trace: seq<State>, n: nat, path: string)
    requires Run(trace) && n < |trace| && path != "" && OneAtATime(trace, n, path)
    requires trace[n].lost[Start(path)] == 0 && trace[n].lost[Done(path)] == 0
    ensures path in Open(trace[n].journal) <==> Workers(trace[n].threads, path) > 0
  {
    hide *;
    SuspectsAreInFlight(trace, n, path);
    InFlightAreSuspects(trace, n, path);
  }

  // ---- Which files in flight are hidden ----

  ghost predicate Writes(trace: seq<State>, m: nat, e: Event)
    requires m + 1 < |trace|
  {
    trace[m + 1].journal == trace[m].journal + [e]
  }

  /** Thread `i` went inside the file with step `k` and has been working on it since. */
  ghost predicate WorkingSince(trace: seq<State>, i: nat, k: nat, n: nat, path: string) {
    && k < n < |trace| && i < |trace[k].threads| && trace[k].threads[i].Answered?
    && forall m :: k < m <= n ==> i < |trace[m].threads| && Working(trace[m].threads[i], path)
  }

  /** No start mark of the file has been written since step `k`. */
  ghost predicate NoStartSince(trace: seq<State>, k: nat, n: nat, path: string)
    requires n < |trace|
  {
    forall l :: k <= l < n ==> !Writes(trace, l, Start(path))
  }

  /** A done mark was written, and no start mark since. */
  ghost predicate ClosedAt(trace: seq<State>, m: nat, n: nat, path: string)
    requires m < n < |trace|
  {
    Writes(trace, m, Done(path)) && NoStartSince(trace, m + 1, n, path)
  }

  ghost predicate ClosedSince(trace: seq<State>, k: nat, n: nat, path: string)
    requires n < |trace|
  {
    exists m :: k < m < n && ClosedAt(trace, m, n, path)
  }

  /** The start mark was lost, nothing has opened the file since, and it was not open before. */
  ghost predicate NeverOpened(trace: seq<State>, k: nat, n: nat, path: string)
    requires k < n < |trace|
  {
    NoStartSince(trace, k, n, path) && path !in Open(trace[k].journal)
  }

  lemma WritesEffect(trace: seq<State>, m: nat, path: string)
    requires Run(trace) && m + 1 < |trace| && path != ""
    ensures path in Open(trace[m + 1].journal)
            <==> Writes(trace, m, Start(path)) || (path in Open(trace[m].journal) && !Writes(trace, m, Done(path)))
    ensures !(Writes(trace, m, Start(path)) && Writes(trace, m, Done(path)))
  {
    hide Open, Steps;
    var s, s' := trace[m], trace[m + 1];
    var i := RunEffect(trace, m, path);
    OpenAppend(s.journal, Start(path), path);
    OpenAppend(s.journal, Done(path), path);
    AppendedOnce(s.journal, Start(path), Done(path));
    OpenEffect(s, s', i, path);
    if Apart(s, s', i, path) && s'.journal != s.journal {
      var e: Event :| e.path != path && s'.journal == s.journal + [e];
      AppendedOnce(s.journal, e, Start(path));
      AppendedOnce(s.journal, e, Done(path));
    }
  }

  lemma AppendedOnce(journal: seq<Event>, e: Event, f: Event)
    ensures journal + [e] != journal
    ensures journal + [e] == journal + [f] <==> e == f
  {
    assert |journal + [e]| == |journal| + 1;
    assert (journal + [e])[|journal|] == e && (journal + [f])[|journal|] == f;
  }

  /** A file that a thread works on is hidden exactly when its last written mark since the thread went
      inside is a done mark, or there is none because the start was lost and the file was not open
      before. */
  lemma {:induction false} HiddenExactly(trace: seq<State>, i: nat, k: nat, n: nat, path: string)
    requires Run(trace) && path != "" && WorkingSince(trace, i, k, n, path)
    ensures path !in Open(trace[n].journal) <==>
              ClosedSince(trace, k, n, path) || NeverOpened(trace, k, n, path)
    decreases n
  {
    hide Open, Working, Writes, Steps;
    WritesEffect(trace, n - 1, path);
    if n == k + 1 {
      EnteringWritesNoDone(trace, i, k, path);
    } else {
      HiddenExactly(trace, i, k, n - 1, path);
      SinceStep(trace, k, n - 1, path);
    }
  }

  /** The step with which a thread goes inside writes no done mark of the file. */
  lemma EnteringWritesNoDone(trace: seq<State>, i: nat, k: nat, path: string)
    requires Run(trace) && path != "" && WorkingSince(trace, i, k, k + 1, path)
    ensures !Writes(trace, k, Done(path))
  {
    hide Steps;
    var s, s' := trace[k], trace[k + 1];
    var j := RunEffect(trace, k, path);
    AppendedOnce(s.journal, Start(path), Done(path));
    if Leaves(s, s', j, path) {
      assert false;
    }
    if Apart(s, s', j, path) && s'.journal != s.journal {
      var e: Event :| e.path != path && s'.journal == s.journal + [e];
      AppendedOnce(s.journal, e, Done(path));
    }
  }

  lemma SinceStep(trace: seq<State>, k: nat, n: nat, path: string)
    requires k < n && n + 1 < |trace|
    ensures NoStartSince(trace, k, n + 1, path)
            <==> NoStartSince(trace, k, n, path) && !Writes(trace, n, Start(path))
    ensures ClosedSince(trace, k, n + 1, path)
            <==> Writes(trace, n, Done(path))
                 || (ClosedSince(trace, k, n, path) && !Writes(trace, n, Start(path)))
  {
    hide Writes;
    if Writes(trace, n, Done(path)) {
      assert ClosedAt(trace, n, n + 1, path);
    }
    if ClosedSince(trace, k, n, path) && !Writes(trace, n, Start(path)) {
      var m :| k < m < n && ClosedAt(trace, m, n, path);
      assert ClosedAt(trace, m, n + 1, path);
    }
    if ClosedSince(trace, k, n + 1, path) {
      var m :| k < m < n + 1 && ClosedAt(trace, m, n + 1, path);
      if m < n { assert ClosedAt(trace, m, n, path); }
    }
  }

  /** And such a done mark is another thread's. */
  lemma HiddenByAnother(trace: seq<State>, i: nat, k: nat, m: nat, n: nat, path: string) returns (j: nat)
    requires Run(trace) && path != "" && WorkingSince(trace, i, k, n, path) && k < m < n
    requires Writes(trace, m, Done(path))
    ensures j != i && Leaves(trace[m], trace[m + 1], j, path)
  {
    hide Steps;
    var s, s' := trace[m], trace[m + 1];
    j := RunEffect(trace, m, path);
    AppendedOnce(s.journal, Start(path), Done(path));
    if Apart(s, s', j, path) {
      var e: Event :| e.path != path && s'.journal == s.journal + [e];
      AppendedOnce(s.journal, e, Done(path));
      assert false;
    }
    assert Working(s'.threads[i], path);
  }

  // ---- Two runs where the marks mislead ----

  /** The quarantine set is loaded and empty, no mark has been lost, every result was allocated. */
  function Plain(threads: seq<Thread>, phase: Phase, loads: nat, journal: seq<Event>,
                 answers: seq<(string, bool)>): State
  {
    State(threads, phase, None, loads, journal, multiset{}, multiset{}, {}, answers)
  }

  /** The first of some threads, all others idle and the set not loaded, gets inside a file. */
  function Entering(f: string, others: seq<Thread>): seq<State> {
    [ Plain([Idle] + others, Uninit, 0, [], []),
      Plain([Asking(f, true)] + others, Uninit, 0, [], []),
      Plain([Trying(f, true)] + others, Uninit, 0, [], []),
      Plain([Loading(f, true)] + others, Initing, 0, [], []),
      Plain([Publishing(f, true)] + others, Initing, 1, [], []),
      Plain([Querying(f, true)] + others, Inited, 1, [], []),
      Plain([Answered(f, true, false)] + others, Inited, 1, [], [(f, false)]),
      Plain([Inside(f)] + others, Inited, 1, [Start(f)], [(f, false)]) ]
  }

  lemma MoveFirst(s: State, t: Thread, u: Thread, others: seq<Thread>)
    requires s.threads == [t] + others
    ensures Move(s, 0, u).threads == [u] + others
  {
    assert ([t] + others)[0 := u] == [u] + others;
  }

  lemma EnteringFirst(f: string, others: seq<Thread>)
    requires f != ""
    ensures var trace := Entering(f, others);
            Step(trace[0], trace[1], 0) && Step(trace[1], trace[2], 0) && Step(trace[2], trace[3], 0)
  {
    var trace := Entering(f, others);
    MoveFirst(trace[0], Idle, Asking(f, true), others);
    MoveFirst(trace[1], Asking(f, true), Trying(f, true), others);
    MoveFirst(trace[2], Trying(f, true), Loading(f, true), others);
  }

  lemma EnteringNext(f: string, others: seq<Thread>)
    requires f != ""
    ensures var trace := Entering(f, others);
            Step(trace[3], trace[4], 0) && Step(trace[4], trace[5], 0)
  {
    var trace := Entering(f, others);
    MoveFirst(trace[3], Loading(f, true), Publishing(f, true), others);
    assert trace[4] == Loaded(trace[3], 0, Publishing(f, true), None);
    MoveFirst(trace[4], Publishing(f, true), Querying(f, true), others);
  }

  lemma EnteringLast(f: string, others: seq<Thread>)
    requires f != ""
    ensures var trace := Entering(f, others);
            Step(trace[5], trace[6], 0) && Step(trace[6], trace[7], 0)
  {
    var trace := Entering(f, others);
    MoveFirst(trace[5], Querying(f, true), Answered(f, true, false), others);
    assert [] + [(f, false)] == [(f, false)];
    MoveFirst(trace[6], Answered(f, true, false), Inside(f), others);
    assert [] + [Start(f)] == [Start(f)];
    assert trace[7] == Marked(Move(trace[6], 0, Inside(f)), Start(f), true);
  }

  lemma EnteringRuns(f: string, others: seq<Thread>)
    requires f != "" && forall i :: 0 <= i < |others| ==> others[i].Idle?
    ensures Run(Entering(f, others))
  {
    EnteringFirst(f, others);
    EnteringNext(f, others);
    EnteringLast(f, others);
    var trace := Entering(f, others);
    assert Init(trace[0]);
    hide Step, Entering;
  }

  /** A run goes on. */
  lemma Continue(run: seq<State>, s: State, i: nat)
    requires Run(run) && Step(run[|run| - 1], s, i)
    ensures Run(run + [s]) && (run + [s])[|run + [s]| - 1] == s
  {
    hide Step;
    var trace := run + [s];
    forall n | 0 <= n < |trace| - 1 ensures Steps(trace[n], trace[n + 1]) {
      if n < |run| - 1 {
        assert trace[n] == run[n] && trace[n + 1] == run[n + 1];
      } else {
        assert trace[n] == run[n] && trace[n + 1] == s;
      }
    }
  }

  /** With two threads inside one file, the done mark of one hides the other: marks S, S, D. */
  lemma OthersDoneHides(f: string) returns (trace: seq<State>)
    requires f != ""
    ensures Run(trace)
    ensures var s := trace[|trace| - 1];
            && s.lost == multiset{} && s.failed == {} && s.journal == [Start(f), Start(f), Done(f)]
            && Workers(s.threads, f) == 1 && f !in Open(s.journal)
  {
    trace := Entering(f, [Idle]);
    EnteringRuns(f, [Idle]);
    assert trace[|trace| - 1] == Plain([Inside(f), Idle], Inited, 1, [Start(f)], [(f, false)]) by {
      assert [Inside(f)] + [Idle] == [Inside(f), Idle];
    }
    hide Entering, Run;
    trace := SecondEnters(trace, f);
    trace := SecondLeaves(trace, f);
    OpenAppend([Start(f), Start(f)], Done(f), f);
    assert [Start(f), Start(f)] + [Done(f)] == [Start(f), Start(f), Done(f)];
    assert [Inside(f), Idle][..1] == [Inside(f)];
    OneWorker(Inside(f), f);
  }

  lemma SecondEnters(run: seq<State>, f: string) returns (trace: seq<State>)
    requires Run(run) && f != ""
    requires run[|run| - 1] == Plain([Inside(f), Idle], Inited, 1, [Start(f)], [(f, false)])
    ensures Run(trace)
    ensures trace[|trace| - 1]
            == Plain([Inside(f), Inside(f)], Inited, 1, [Start(f), Start(f)], [(f, false), (f, false)])
  {
    hide Run;
    var a, one, answers := Inside(f), [Start(f)], [(f, false)];
    var s1 := Plain([a, Asking(f, true)], Inited, 1, one, answers);
    var s2 := Plain([a, Querying(f, true)], Inited, 1, one, answers);
    var s3 := Plain([a, Answered(f, true, false)], Inited, 1, one, answers + answers);
    var s4 := Plain([a, a], Inited, 1, one + one, answers + answers);
    Continue(run, s1, 1);
    Continue(run + [s1], s2, 1);
    Continue(run + [s1] + [s2], s3, 1);
    assert s4 == Marked(Move(s3, 1, Inside(f)), Start(f), true);
    Continue(run + [s1] + [s2] + [s3], s4, 1);
    trace := run + [s1] + [s2] + [s3] + [s4];
  }

  lemma SecondLeaves(run: seq<State>, f: string) returns (trace: seq<State>)
    requires Run(run) && f != ""
    requires run[|run| - 1]
             == Plain([Inside(f), Inside(f)], Inited, 1, [Start(f), Start(f)], [(f, false), (f, false)])
    ensures Run(trace)
    ensures trace[|trace| - 1]
            == Plain([Inside(f), Idle], Inited, 1, [Start(f), Start(f), Done(f)], [(f, false), (f, false)])
  {
    hide Run;
    var a, two, answers := Inside(f), [Start(f), Start(f)], [(f, false), (f, false)];
    var s1 := Plain([a, Leaving(f, true)], Inited, 1, two, answers);
    var s2 := Plain([a, Idle], Inited, 1, two + [Done(f)], answers);
    Continue(run, s1, 1);
    assert s2 == Finished(Marked(Move(s1, 1, Idle), Done(f), true), f, true);
    Continue(run + [s1], s2, 1);
    trace := run + [s1] + [s2];
  }

  lemma OneWorker(t: Thread, path: string)
    ensures Workers([t], path) == One(Working(t, path))
  {
    assert [t][..0] == [];
  }

  /** After a lost done mark a file is a suspect although nobody works on it. */
  lemma LostDoneMisleads(f: string) returns (trace: seq<State>)
    requires f != ""
    ensures Run(trace)
    ensures var s := trace[|trace| - 1];
            && s.lost == multiset{Done(f)} && s.failed == {} && s.journal == [Start(f)]
            && Workers(s.threads, f) == 0 && f in Open(s.journal)
  {
    trace := Entering(f, []);
    EnteringRuns(f, []);
    var inside := trace[7];
    assert inside.threads == [Inside(f)];
    assert trace[|trace| - 1] == inside;
    hide Entering, Run;
    var leaving := Move(inside, 0, Leaving(f, true));
    Continue(trace, leaving, 0);
    var idle := Finished(Marked(Move(leaving, 0, Idle), Done(f), false), f, true);
    Continue(trace + [leaving], idle, 0);
    trace := trace + [leaving] + [idle];
    assert [] + [Start(f)] == [Start(f)];
    OpenAppend([], Start(f), f);
    assert idle.threads == [Idle];
    OneWorker(Idle, f);
  }

  lemma {:induction false} AWorker(threads: seq<Thread>, path: string) returns (i: nat)
    requires Workers(threads, path) > 0
    ensures i < |threads| && Working(threads[i], path)
  {
    var last := |threads| - 1;
    if Working(threads[last], path) {
      i := last;
    } else {
      i := AWorker(threads[..last], path);
    }
  }
}
