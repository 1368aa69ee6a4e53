/**
 When is the other end of a pipe closed?  (lab/lib/pipe.c, lab/lib/fd.c)

 A descriptor for an end of the pipe is a page of its own; beside it the pipe's data page
 is mapped.  _pipeisclosed() compares the reference counts of the two pages and trusts the
 answer if the environment was not interrupted.  Here many environments on one processor
 dup, close, fork and are destroyed, one system call or page-table read at a time, and the
 answer is shown to be right.

 Slot (e, i) is descriptor i of environment e.  Copying all descriptors to a child is one
 step, and so is tearing down an environment, which the kernel does without interruption.
 */
module PipeRefs {

  datatype End = ReadEnd | WriteEnd
  datatype Slot = Slot(e: nat, i: nat)

  // What an environment is in the middle of.
  datatype Pc =
    | Idle
    | CloseData(i: nat)                           // devpipe_close: the data page is next
    | DupClose(src: nat, dst: nat)               // dup: close(newfdnum)
    | DupCloseData(src: nat, dst: nat)           //      its data page
    | DupData(src: nat, dst: nat)                //      map the data page
    | DupFd(src: nat, dst: nat)                  //      map the descriptor page
    | DupErr(dst: nat)                           //      err: unmap the descriptor page
    | DupErrData(dst: nat)                       //           and the data page
    | Ask(i: nat)                                 // _pipeisclosed: n = env_runs
    | AskFd(i: nat, n: nat)                       //                pageref(fd)
    | AskPipe(i: nat, n: nat, a: nat)             //                pageref(p)
    | AskAgain(i: nat, n: nat, closed: bool)      //                nn = env_runs
    | Answer(i: nat, closed: bool)

  datatype State = State(
    fds: map<Slot, End>,         // mapped descriptor pages of the pipe
    data: set<Slot>,             // where the pipe's data page is mapped
    cur: nat,                    // the environment running
    runs: map<nat, nat>,         // env_runs
    pcs: map<nat, Pc>
  )

  function Other(end: End): End { if end.ReadEnd? then WriteEnd else ReadEnd }

  // pageref() of the descriptor page of an end.
  ghost function Holders(s: State, end: End): set<Slot> {
    set x | x in s.fds && s.fds[x] == end
  }

  // ------------------------------------------------------------------
  // Steps
  // ------------------------------------------------------------------

  datatype Step =
    | Switch(e: nat)                               // env_run
    | StartClose(i: nat)
    | StartDup(src: nat, dst: nat)
    | StartAsk(i: nat)
    | Go(fail: bool)                               // the next system call or load; `fail` if it runs out of memory
    | Fork(c: nat)                                 // the child gets every mapping
    | Destroy(e: nat)                              // every mapping of `e` goes

  predicate Enabled(s: State, step: Step) {
    match step
    case Switch(e) => e in s.pcs && e in s.runs
    case Destroy(e) => s.cur in s.pcs && s.pcs[s.cur].Idle?
    case Fork(c) => s.cur in s.pcs && s.pcs[s.cur].Idle? && c !in s.pcs && c !in s.runs
                    && (forall x :: x in s.fds ==> x.e != c) && (forall x :: x in s.data ==> x.e != c)
    case StartClose(i) => s.cur in s.pcs && s.pcs[s.cur].Idle? && Slot(s.cur, i) in s.fds
    case StartDup(src, _) => s.cur in s.pcs && s.pcs[s.cur].Idle? && Slot(s.cur, src) in s.fds
    case StartAsk(i) => s.cur in s.pcs && s.pcs[s.cur].Idle? && Slot(s.cur, i) in s.fds
    case Go(_) => s.cur in s.pcs && s.cur in s.runs && !s.pcs[s.cur].Idle?
  }

  function SetPc(s: State, pc: Pc): State { s.(pcs := s.pcs[s.cur := pc]) }

  ghost function Continue(s: State, fail: bool): State
    requires s.cur in s.pcs && s.cur in s.runs
  {
    var e := s.cur;
    match s.pcs[e]
    case Idle => s
    case CloseData(i) => SetPc(s.(data := s.data - {Slot(e, i)}), Idle)
    case DupClose(src, n) =>
      if Slot(e, n) in s.fds then SetPc(s.(fds := s.fds - {Slot(e, n)}), DupCloseData(src, n))
      else SetPc(s, DupData(src, n))
    case DupCloseData(src, n) => SetPc(s.(data := s.data - {Slot(e, n)}), DupData(src, n))
    case DupData(src, n) =>
      if Slot(e, src) !in s.data then SetPc(s, DupFd(src, n))
      else if fail then SetPc(s, DupErr(n))
      else SetPc(s.(data := s.data + {Slot(e, n)}), DupFd(src, n))
    case DupFd(src, n) =>
      if fail || Slot(e, src) !in s.fds then SetPc(s, DupErr(n))
      else SetPc(s.(fds := s.fds[Slot(e, n) := s.fds[Slot(e, src)]]), Idle)
    case DupErr(n) => SetPc(s.(fds := s.fds - {Slot(e, n)}), DupErrData(n))
    case DupErrData(n) => SetPc(s.(data := s.data - {Slot(e, n)}), Idle)
    case Ask(i) => SetPc(s, AskFd(i, s.runs[e]))
    case AskFd(i, n) =>
      SetPc(s, AskPipe(i, n, if Slot(e, i) in s.fds then |Holders(s, s.fds[Slot(e, i)])| else 0))
    case AskPipe(i, n, a) => SetPc(s, AskAgain(i, n, a == if Slot(e, i) in s.data then |s.data| else 0))
    case AskAgain(i, n, closed) => SetPc(s, if s.runs[e] == n then Answer(i, closed) else Ask(i))
    case Answer(_, _) => SetPc(s, Idle)
  }

  // The descriptors of `p`, in `c`.
  function Copy(s: State, p: nat, c: nat): State {
    s.(fds := s.fds + (map x | x in s.fds && x.e == p :: Slot(c, x.i) := s.fds[x]),
       data := s.data + (set x | x in s.data && x.e == p :: Slot(c, x.i)),
       pcs := s.pcs[c := Idle], runs := s.runs[c := 0])
  }

  function Drop(s: State, e: nat): State {
    s.(fds := (map x | x in s.fds && x.e != e :: s.fds[x]),
       data := (set x | x in s.data && x.e != e),
       pcs := s.pcs - {e}, runs := s.runs - {e})
  }

  ghost function Next(s: State, step: Step): State
    requires Enabled(s, step)
  {
    match step
    case Switch(e) => s.(cur := e, runs := s.runs[e := s.runs[e] + 1])
    case StartClose(i) => SetPc(s.(fds := s.fds - {Slot(s.cur, i)}), CloseData(i))
    case StartDup(src, n) => SetPc(s, DupClose(src, n))
    case StartAsk(i) => SetPc(s, Ask(i))
    case Go(fail) => Continue(s, fail)
    case Fork(c) => Copy(s, s.cur, c)
    case Destroy(e) => Drop(s, e)
  }

  // ------------------------------------------------------------------
  // The invariant
  // ------------------------------------------------------------------

  // A mapped descriptor has its data page mapped.
  ghost predicate Paired(s: State, x: Slot) {
    x in s.fds ==> x in s.data
  }

  // The data page is mapped without its descriptor only while that is being opened or closed.
  predicate Working(pc: Pc, i: nat) {
    match pc
    case CloseData(j) => i == j
    case DupCloseData(_, j) => i == j
    case DupFd(_, j) => i == j
    case DupErr(j) => i == j
    case DupErrData(j) => i == j
    case _ => false
  }

  ghost predicate Accounted(s: State, x: Slot) {
    x in s.data ==> x in s.fds || (x.e in s.pcs && Working(s.pcs[x.e], x.i))
  }

  ghost predicate PcOk(s: State, e: nat) {
    e in s.pcs ==>
      && e in s.runs
      && match s.pcs[e]
         case CloseData(i) => Slot(e, i) !in s.fds
         case DupCloseData(_, n) => Slot(e, n) !in s.fds
         case DupData(_, n) => Slot(e, n) !in s.fds
         case DupFd(src, n) => Slot(e, n) !in s.fds && (Slot(e, src) in s.fds ==> Slot(e, n) in s.data)
         case DupErrData(n) => Slot(e, n) !in s.fds
         case Ask(i) => Slot(e, i) in s.fds
         case AskFd(i, n) => Slot(e, i) in s.fds && n <= s.runs[e]
         // uninterrupted, the counts read are the counts now
         case AskPipe(i, n, a) =>
           && Slot(e, i) in s.fds && n <= s.runs[e]
           && (s.cur == e && s.runs[e] == n ==> a == |Holders(s, s.fds[Slot(e, i)])|)
         case AskAgain(i, n, closed) =>
           && Slot(e, i) in s.fds && n <= s.runs[e]
           && (s.cur == e && s.runs[e] == n && closed ==> |Holders(s, s.fds[Slot(e, i)])| == |s.data|)
         case Answer(i, closed) =>
           Slot(e, i) in s.fds && (closed ==> Holders(s, Other(s.fds[Slot(e, i)])) == {})
         case _ => true
  }

  ghost predicate Inv(s: State) {
    && (forall x {:trigger Paired(s, x)} :: Paired(s, x))
    && (forall x {:trigger Accounted(s, x)} :: Accounted(s, x))
    && (forall e {:trigger PcOk(s, e)} :: PcOk(s, e))
  }

  // refs(read end) + refs(write end) <= refs(pipe page)
  lemma EndsWithinPipe(s: State)
    requires Inv(s)
    ensures |Holders(s, ReadEnd)| + |Holders(s, WriteEnd)| <= |s.data|
  {
    var r, w := Holders(s, ReadEnd), Holders(s, WriteEnd);
    assert r !! w;
    assert |r + w| == |r| + |w|;
    forall x | x in r + w ensures x in s.data { assert Paired(s, x); }
    Subset(r + w, s.data);
  }

  lemma Subset(a: set<Slot>, b: set<Slot>)
    requires a <= b
    ensures |a| <= |b|
  {
    assert b == a + (b - a);
    assert |b| == |a| + |b - a|;
  }

  lemma EqualCountsMeanClosed(s: State, end: End)
    requires Inv(s) && |Holders(s, end)| == |s.data|
    ensures Holders(s, Other(end)) == {}
  {
    EndsWithinPipe(s);
  }

  // With nothing half open or half closed, the counts agree exactly if the other end is closed.
  lemma EqualCountsIffClosed(s: State, end: End)
    requires Inv(s) && forall e, i :: e in s.pcs ==> !Working(s.pcs[e], i)
    ensures |Holders(s, end)| == |s.data| <==> Holders(s, Other(end)) == {}
  {
    EndsWithinPipe(s);
    if Holders(s, Other(end)) == {} {
      forall x ensures x in s.data <==> x in Holders(s, end) {
        assert Accounted(s, x) && Paired(s, x);
        assert x in s.fds ==> x !in Holders(s, Other(end));
      }
      assert s.data == Holders(s, end);
    }
  }

  // An end that nobody holds stays that way.
  lemma ClosedStays(s: State, step: Step, end: End)
    requires Inv(s) && Enabled(s, step) && Holders(s, end) == {}
    ensures Holders(Next(s, step), end) == {}
  {
    assert forall x :: x in s.fds ==> x !in Holders(s, end);
  }

  // The descriptors of an environment change only while it runs, or with it.
  lemma SlotsOf(s: State, step: Step, x: Slot)
    requires Enabled(s, step) && x.e != s.cur
    requires step.Fork? ==> x.e != step.c
    requires step.Destroy? ==> x.e != step.e
    ensures var t := Next(s, step);
            (x in t.fds <==> x in s.fds) && (x in s.fds ==> t.fds[x] == s.fds[x]) && (x in t.data <==> x in s.data)
  {
  }

  lemma NextPaired(s: State, step: Step, x: Slot)
    requires Inv(s) && Enabled(s, step)
    ensures Paired(Next(s, step), x)
  {
    assert Paired(s, x) && PcOk(s, s.cur);
    if step.Fork? { assert Paired(s, Slot(s.cur, x.i)); }
  }

  lemma NextAccounted(s: State, step: Step, x: Slot)
    requires Inv(s) && Enabled(s, step)
    ensures Accounted(Next(s, step), x)
  {
    assert Accounted(s, x) && Paired(s, x) && PcOk(s, s.cur);
    if step.Fork? { assert Accounted(s, Slot(s.cur, x.i)); }
  }

  // The environment that takes the step.
  lemma OwnPc(s: State, step: Step)
    requires Inv(s) && Enabled(s, step)
    ensures PcOk(Next(s, step), s.cur)
  {
    assert PcOk(s, s.cur);
    assert Next(s, step).fds == s.fds ==> forall end :: Holders(Next(s, step), end) == Holders(s, end);
    if step.Go? && s.pcs[s.cur].AskAgain? {
      var pc := s.pcs[s.cur];
      if s.runs[s.cur] == pc.n && pc.closed { EqualCountsMeanClosed(s, s.fds[Slot(s.cur, pc.i)]); }
    }
    if step.Go? && s.pcs[s.cur].DupData? { assert Paired(s, Slot(s.cur, s.pcs[s.cur].src)); }
    if step.Go? && s.pcs[s.cur].AskPipe? { assert Paired(s, Slot(s.cur, s.pcs[s.cur].i)); }
    if s.cur in s.pcs && s.pcs[s.cur].Answer? && s.pcs[s.cur].closed {
      ClosedStays(s, step, Other(s.fds[Slot(s.cur, s.pcs[s.cur].i)]));
    }
  }

  lemma OtherPc(s: State, step: Step, e: nat)
    requires Inv(s) && Enabled(s, step) && e != s.cur
    ensures PcOk(Next(s, step), e)
  {
    assert PcOk(s, e);
    var t := Next(s, step);
    if e in s.pcs && e in t.pcs {
      forall i ensures var x := Slot(e, i);
                       (x in t.fds <==> x in s.fds) && (x in s.fds ==> t.fds[x] == s.fds[x]) && (x in t.data <==> x in s.data)
      {
        SlotsOf(s, step, Slot(e, i));
      }
      if s.pcs[e].Answer? && s.pcs[e].closed {
        ClosedStays(s, step, Other(s.fds[Slot(e, s.pcs[e].i)]));
      }
    }
  }

  lemma NextKeeps(s: State, step: Step)
    requires Inv(s) && Enabled(s, step)
    ensures Inv(Next(s, step))
  {
    var t := Next(s, step);
    forall x ensures Paired(t, x) { NextPaired(s, step, x); }
    forall x ensures Accounted(t, x) { NextAccounted(s, step, x); }
    forall e ensures PcOk(t, e) {
      if e == s.cur { OwnPc(s, step); } else { OtherPc(s, step, e); }
    }
  }

  // ------------------------------------------------------------------
  // Every run
  // ------------------------------------------------------------------

  // Right after pipe(): environment `e` has both ends, in slots i and j.
  predicate Init(s: State, e: nat, i: nat, j: nat) {
    && i != j && s.fds == map[Slot(e, i) := ReadEnd, Slot(e, j) := WriteEnd] && s.data == {Slot(e, i), Slot(e, j)}
    && (forall e :: e in s.pcs ==> e in s.runs && s.pcs[e].Idle?)
  }

  lemma InitInv(s: State)
    requires exists e, i, j :: Init(s, e, i, j)
    ensures Inv(s)
  {
    forall x ensures Paired(s, x) && Accounted(s, x) { }
    forall d ensures PcOk(s, d) { }
  }

  ghost predicate Reaches(s: State, steps: seq<Step>, t: State)
    decreases |steps|
  {
    if steps == [] then t == s else Enabled(s, steps[0]) && Reaches(Next(s, steps[0]), steps[1..], t)
  }

  lemma {:induction false} RunKeeps(s: State, steps: seq<Step>, t: State)
    requires Inv(s) && Reaches(s, steps, t)
    ensures Inv(t)
    decreases |steps|
  {
    if steps != [] {
      NextKeeps(s, steps[0]);
      RunKeeps(Next(s, steps[0]), steps[1..], t);
    }
  }

  lemma {:induction false} ClosedForGood(s: State, steps: seq<Step>, t: State, end: End)
    requires Inv(s) && Reaches(s, steps, t) && Holders(s, end) == {}
    ensures Holders(t, end) == {}
    decreases |steps|
  {
    if steps != [] {
      NextKeeps(s, steps[0]);
      ClosedStays(s, steps[0], end);
      ClosedForGood(Next(s, steps[0]), steps[1..], t, end);
    }
  }

  // If _pipeisclosed() says so in state `t` of a run, nobody holds the other end then, nor
  // in any state `u` after it.
  lemma PipeIsClosed(s: State, before: seq<Step>, t: State, after: seq<Step>, u: State, e: nat)
    requires (exists d, i, j :: Init(s, d, i, j)) && Reaches(s, before, t) && Reaches(t, after, u)
    requires e in t.pcs && t.pcs[e].Answer? && t.pcs[e].closed
    ensures Slot(e, t.pcs[e].i) in t.fds
    ensures Holders(u, Other(t.fds[Slot(e, t.pcs[e].i)])) == {}
  {
    InitInv(s);
    RunKeeps(s, before, t);
    assert PcOk(t, e);
    ClosedForGood(t, after, u, Other(t.fds[Slot(e, t.pcs[e].i)]));
  }

  // ------------------------------------------------------------------
  // Operations left to themselves
  // ------------------------------------------------------------------

  // Nobody is in the middle of anything that leaves a page half mapped.
  ghost predicate Quiet(s: State) {
    forall e, i :: e in s.pcs ==> !Working(s.pcs[e], i)
  }

  lemma Then(s: State, step: Step, steps: seq<Step>, t: State)
    requires Enabled(s, step) && Reaches(Next(s, step), steps, t)
    ensures Reaches(s, [step] + steps, t)
  {
    assert ([step] + steps)[1..] == steps;
  }

  // The running environment goes on by itself, without running out of memory.
  function Alone(n: nat): seq<Step> { if n == 0 then [] else [Go(false)] + Alone(n - 1) }

  ghost predicate Goes(s: State, t: State) {
    s.cur in s.pcs && s.cur in s.runs && !s.pcs[s.cur].Idle? && Continue(s, false) == t
  }

  lemma GoesOn(s: State, n: nat, t: State, u: State)
    requires Goes(s, t) && Reaches(t, Alone(n), u)
    ensures Reaches(s, Alone(n + 1), u)
  {
    Then(s, Go(false), Alone(n), u);
  }

  lemma SetTwice(s: State, a: Pc, b: Pc)
    ensures SetPc(SetPc(s, a), b) == SetPc(s, b)
  {
  }

  // _pipeisclosed() changes nothing but where it is.
  lemma AskGoes(s: State, i: nat, closed: bool)
    requires s.cur in s.pcs && s.cur in s.runs && Slot(s.cur, i) in s.fds && Slot(s.cur, i) in s.data
    requires closed <==> |Holders(s, s.fds[Slot(s.cur, i)])| == |s.data|
    ensures Reaches(SetPc(s, Ask(i)), Alone(4), SetPc(s, Answer(i, closed)))
  {
    var n, a := s.runs[s.cur], |Holders(s, s.fds[Slot(s.cur, i)])|;
    var s2, s3, s4 := SetPc(s, AskFd(i, n)), SetPc(s, AskPipe(i, n, a)), SetPc(s, AskAgain(i, n, closed));
    var s5 := SetPc(s, Answer(i, closed));
    assert Goes(s4, s5) by { SetTwice(s, s4.pcs[s.cur], s5.pcs[s.cur]); }
    GoesOn(s4, 0, s5, s5);
    assert Goes(s3, s4) by { SetTwice(s, s3.pcs[s.cur], s4.pcs[s.cur]); }
    GoesOn(s3, 1, s4, s5);
    assert Goes(s2, s3) by {
      assert Holders(s2, s.fds[Slot(s.cur, i)]) == Holders(s, s.fds[Slot(s.cur, i)]);
      SetTwice(s, s2.pcs[s.cur], s3.pcs[s.cur]);
    }
    GoesOn(s2, 2, s3, s5);
    assert Goes(SetPc(s, Ask(i)), s2) by { SetTwice(s, Ask(i), s2.pcs[s.cur]); }
    GoesOn(SetPc(s, Ask(i)), 3, s2, s5);
  }

  // In a quiet moment of any run the answer is yes if and only if the other end is closed.
  lemma AnswersExactly(s0: State, before: seq<Step>, s: State, i: nat)
    requires (exists d, i, j :: Init(s0, d, i, j)) && Reaches(s0, before, s)
    requires Quiet(s) && Enabled(s, StartAsk(i))
    ensures Reaches(s, [StartAsk(i)] + Alone(4), SetPc(s, Answer(i, Holders(s, Other(s.fds[Slot(s.cur, i)])) == {})))
  {
    InitInv(s0);
    RunKeeps(s0, before, s);
    assert PcOk(s, s.cur) && Paired(s, Slot(s.cur, i));
    var end := s.fds[Slot(s.cur, i)];
    EqualCountsIffClosed(s, end);
    var closed := Holders(s, Other(end)) == {};
    AskGoes(s, i, closed);
    Then(s, StartAsk(i), Alone(4), SetPc(s, Answer(i, closed)));
  }

  // close() unmaps the descriptor and its data page.
  lemma CloseCloses(s: State, i: nat)
    requires Inv(s) && Enabled(s, StartClose(i))
    ensures var x := Slot(s.cur, i); Reaches(s, [StartClose(i)] + Alone(1), s.(fds := s.fds - {x}, data := s.data - {x}))
  {
    assert PcOk(s, s.cur);
    var x := Slot(s.cur, i);
    var s0, t := s.(fds := s.fds - {x}), s.(fds := s.fds - {x}, data := s.data - {x});
    var s1 := SetPc(s0, CloseData(i));
    assert Goes(s1, t) by { assert t == SetPc(t, Idle); }
    GoesOn(s1, 0, t, t);
    Then(s, StartClose(i), Alone(1), t);
  }

  // The steps of dup() once the new number is closed.
  lemma DupMaps(s: State, src: nat, dst: nat)
    requires s.cur in s.pcs && s.cur in s.runs && src != dst && Slot(s.cur, src) in s.fds && Slot(s.cur, src) in s.data
    ensures var x, y := Slot(s.cur, src), Slot(s.cur, dst);
            Reaches(SetPc(s, DupData(src, dst)), Alone(2), SetPc(s.(fds := s.fds[y := s.fds[x]], data := s.data + {y}), Idle))
  {
    var x, y := Slot(s.cur, src), Slot(s.cur, dst);
    var s1 := s.(data := s.data + {y});
    var s2 := s1.(fds := s.fds[y := s.fds[x]]);
    assert Goes(SetPc(s1, DupFd(src, dst)), SetPc(s2, Idle)) by { SetTwice(s2, DupFd(src, dst), Idle); }
    GoesOn(SetPc(s1, DupFd(src, dst)), 0, SetPc(s2, Idle), SetPc(s2, Idle));
    assert Goes(SetPc(s, DupData(src, dst)), SetPc(s1, DupFd(src, dst))) by { SetTwice(s1, DupData(src, dst), DupFd(src, dst)); }
    GoesOn(SetPc(s, DupData(src, dst)), 1, SetPc(s1, DupFd(src, dst)), SetPc(s2, Idle));
  }

  // Its close(newfdnum), of an open descriptor.
  lemma DupCloses(s: State, src: nat, dst: nat, n: nat, u: State)
    requires s.cur in s.pcs && s.cur in s.runs && Slot(s.cur, dst) in s.fds
    requires var y := Slot(s.cur, dst);
             Reaches(SetPc(s.(fds := s.fds - {y}, data := s.data - {y}), DupData(src, dst)), Alone(n), u)
    ensures Reaches(SetPc(s, DupClose(src, dst)), Alone(n + 2), u)
  {
    var y := Slot(s.cur, dst);
    var s1, s2 := s.(fds := s.fds - {y}), s.(fds := s.fds - {y}, data := s.data - {y});
    var t1, t2 := SetPc(s1, DupCloseData(src, dst)), SetPc(s2, DupData(src, dst));
    assert Goes(t1, t2) by { SetTwice(s2, DupCloseData(src, dst), DupData(src, dst)); }
    GoesOn(t1, n, t2, u);
    assert Goes(SetPc(s, DupClose(src, dst)), t1) by { SetTwice(s1, DupClose(src, dst), DupCloseData(src, dst)); }
    GoesOn(SetPc(s, DupClose(src, dst)), n + 1, t1, u);
  }

  // dup() makes the new descriptor a second one for the same end, whatever it was before.
  lemma DupDups(s: State, src: nat, dst: nat)
    requires Inv(s) && Enabled(s, StartDup(src, dst)) && src != dst
    ensures var x, y := Slot(s.cur, src), Slot(s.cur, dst);
            Reaches(s, [StartDup(src, dst)] + Alone(if y in s.fds then 4 else 3),
                    s.(fds := s.fds[y := s.fds[x]], data := s.data + {y}))
  {
    var x, y := Slot(s.cur, src), Slot(s.cur, dst);
    assert PcOk(s, s.cur) && Paired(s, x);
    var t := s.(fds := s.fds[y := s.fds[x]], data := s.data + {y});
    assert t == SetPc(t, Idle);
    if y in s.fds {
      var s' := s.(fds := s.fds - {y}, data := s.data - {y});
      DupMaps(s', src, dst);
      assert (s.fds - {y})[y := s.fds[x]] == t.fds && (s.data - {y}) + {y} == t.data;
      DupCloses(s, src, dst, 2, t);
      Then(s, StartDup(src, dst), Alone(4), t);
    } else {
      DupMaps(s, src, dst);
      assert Goes(SetPc(s, DupClose(src, dst)), SetPc(s, DupData(src, dst))) by { SetTwice(s, DupClose(src, dst), DupData(src, dst)); }
      GoesOn(SetPc(s, DupClose(src, dst)), 2, SetPc(s, DupData(src, dst)), t);
      Then(s, StartDup(src, dst), Alone(3), t);
    }
  }

  // Onto itself it only closes.
  lemma DupOntoItself(s: State, i: nat)
    requires Inv(s) && Enabled(s, StartDup(i, i))
    ensures var x := Slot(s.cur, i); Reaches(s, [StartDup(i, i)] + Alone(6), s.(fds := s.fds - {x}, data := s.data - {x}))
  {
    var x := Slot(s.cur, i);
    assert PcOk(s, s.cur);
    var t := s.(fds := s.fds - {x}, data := s.data - {x});
    var t1, t2, t3, t4 := SetPc(t, DupData(i, i)), SetPc(t, DupFd(i, i)), SetPc(t, DupErr(i)), SetPc(t, DupErrData(i));
    assert t.fds - {x} == t.fds && t.data - {x} == t.data;
    assert Goes(t4, t) by { SetTwice(t, DupErrData(i), Idle); assert t == SetPc(t, Idle); }
    GoesOn(t4, 0, t, t);
    assert Goes(t3, t4) by { SetTwice(t, DupErr(i), DupErrData(i)); }
    GoesOn(t3, 1, t4, t);
    assert Goes(t2, t3) by { SetTwice(t, DupFd(i, i), DupErr(i)); }
    GoesOn(t2, 2, t3, t);
    assert Goes(t1, t2) by { SetTwice(t, DupData(i, i), DupFd(i, i)); }
    GoesOn(t1, 3, t2, t);
    DupCloses(s, i, i, 4, t);
    Then(s, StartDup(i, i), Alone(6), t);
  }

  // The child of a fork has exactly its parent's descriptors, and a destroyed environment none.
  lemma ForkShares(s: State, c: nat, x: Slot)
    requires Enabled(s, Fork(c))
    ensures var t, y := Next(s, Fork(c)), if x.e == c then Slot(s.cur, x.i) else x;
            (x in t.fds <==> y in s.fds) && (x in t.fds ==> t.fds[x] == s.fds[y]) && (x in t.data <==> y in s.data)
  {
    var p := s.cur;
    if x.e == c {
      assert x in Next(s, Fork(c)).data <==> x in (set y | y in s.data && y.e == p :: Slot(c, y.i));
      var m := map y | y in s.fds && y.e == p :: Slot(c, y.i) := s.fds[y];
      assert x in m <==> Slot(p, x.i) in s.fds;
    }
  }

  lemma DestroyDrops(s: State, e: nat, x: Slot)
    requires Enabled(s, Destroy(e))
    ensures var t := Next(s, Destroy(e));
            && (x in t.fds <==> x in s.fds && x.e != e) && (x in t.fds ==> t.fds[x] == s.fds[x])
            && (x in t.data <==> x in s.data && x.e != e)
  {
  }
}
