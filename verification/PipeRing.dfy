/**
 The ring buffer of a pipe (lab/lib/pipe.c), with one reader and one writer that interleave
 at every access to the shared page.

 Each side's loop is a machine whose steps are its loads and stores: the reader looks at
 both positions, takes a byte and moves p_rpos on; the writer looks at both positions,
 stores a byte and moves p_wpos on.  Looking at an empty or full pipe starts over, whether
 the code then yields, returns, or asks if the other end is closed.  Positions do not
 overflow.
 */
module PipeRing {

  const PIPEBUFSIZ := 32

  datatype Reader =
    | RStart                        // load p_rpos
    | RWpos(r: nat)                 // load p_wpos and compare
    | RIndex                        // load p_rpos again, for the index
    | RByte(r: nat)                 // load p_buf[r % PIPEBUFSIZ] and deliver it
    | RNext                         // load p_rpos once more
    | RStore(r: nat)                // p_rpos = r + 1

  datatype Writer =
    | WStart                        // load p_wpos
    | WRpos(w: nat)                 // load p_rpos and compare
    | WIndex                        // load p_wpos again, for the index
    | WByte(w: nat)                 // p_buf[w % PIPEBUFSIZ] = the next byte
    | WNext(x: int)                 // load p_wpos once more
    | WStore(w: nat, x: int)        // p_wpos = w + 1

  // `sent` and `got` are histories: the bytes whose write is complete, and those delivered.
  datatype State = State(rpos: nat, wpos: nat, buf: seq<int>, reader: Reader, writer: Writer, sent: seq<int>, got: seq<int>)

  datatype Step = Read | Write(x: int)

  function ReaderStep(s: State): State
    requires |s.buf| == PIPEBUFSIZ
  {
    match s.reader
    case RStart => s.(reader := RWpos(s.rpos))
    case RWpos(r) => s.(reader := if r == s.wpos then RStart else RIndex)
    case RIndex => s.(reader := RByte(s.rpos))
    case RByte(r) => s.(reader := RNext, got := s.got + [s.buf[r % PIPEBUFSIZ]])
    case RNext => s.(reader := RStore(s.rpos))
    case RStore(r) => s.(reader := RStart, rpos := r + 1)
  }

  // `x` is the byte the writer has at hand.
  function WriterStep(s: State, x: int): State
    requires |s.buf| == PIPEBUFSIZ
  {
    match s.writer
    case WStart => s.(writer := WRpos(s.wpos))
    case WRpos(w) => s.(writer := if w >= s.rpos + PIPEBUFSIZ then WStart else WIndex)
    case WIndex => s.(writer := WByte(s.wpos))
    case WByte(w) => s.(writer := WNext(x), buf := s.buf[w % PIPEBUFSIZ := x])
    case WNext(y) => s.(writer := WStore(s.wpos, y))
    case WStore(w, y) => s.(writer := WStart, wpos := w + 1, sent := s.sent + [y])
  }

  function Next(s: State, step: Step): State
    requires |s.buf| == PIPEBUFSIZ
  {
    match step
    case Read => ReaderStep(s)
    case Write(x) => WriterStep(s, x)
  }

  predicate Init(s: State) {
    && s.rpos == 0 && s.wpos == 0 && |s.buf| == PIPEBUFSIZ
    && s.reader == RStart && s.writer == WStart && s.sent == [] && s.got == []
  }

  // ------------------------------------------------------------------
  // The invariant
  // ------------------------------------------------------------------

  // What is between the positions is what was sent.
  ghost predicate Buffered(s: State)
    requires |s.buf| == PIPEBUFSIZ
  {
    && s.rpos <= s.wpos <= s.rpos + PIPEBUFSIZ && |s.sent| == s.wpos
    && forall k :: s.rpos <= k < s.wpos ==> s.buf[k % PIPEBUFSIZ] == s.sent[k]
  }

  // The reader has seen a byte: nobody can take it away.
  ghost predicate ReaderOk(s: State)
    requires |s.sent| == s.wpos
  {
    match s.reader
    case RStart => s.got == s.sent[..Min(s.rpos, s.wpos)] && s.rpos <= s.wpos
    case RWpos(r) => r == s.rpos <= s.wpos && s.got == s.sent[..r]
    case RIndex => s.rpos < s.wpos && s.got == s.sent[..s.rpos]
    case RByte(r) => r == s.rpos < s.wpos && s.got == s.sent[..r]
    case RNext => s.rpos < s.wpos && s.got == s.sent[..s.rpos + 1]
    case RStore(r) => r == s.rpos < s.wpos && s.got == s.sent[..r + 1]
  }

  // The writer has seen room: nobody can fill it.
  ghost predicate WriterOk(s: State)
    requires |s.buf| == PIPEBUFSIZ
  {
    match s.writer
    case WStart => true
    case WRpos(w) => w == s.wpos
    case WIndex => s.wpos < s.rpos + PIPEBUFSIZ
    case WByte(w) => w == s.wpos < s.rpos + PIPEBUFSIZ
    case WNext(x) => s.wpos < s.rpos + PIPEBUFSIZ && s.buf[s.wpos % PIPEBUFSIZ] == x
    case WStore(w, x) => w == s.wpos < s.rpos + PIPEBUFSIZ && s.buf[w % PIPEBUFSIZ] == x
  }

  function Min(a: nat, b: nat): nat { if a < b then a else b }

  ghost predicate Inv(s: State) {
    |s.buf| == PIPEBUFSIZ && Buffered(s) && ReaderOk(s) && WriterOk(s)
  }

  lemma SlotsDiffer(k: nat, w: nat)
    requires k < w < k + PIPEBUFSIZ
    ensures k % PIPEBUFSIZ != w % PIPEBUFSIZ
  {
  }

  lemma ReaderKeeps(s: State)
    requires Inv(s)
    ensures Inv(ReaderStep(s))
  {
    var s' := ReaderStep(s);
    if s.reader.RByte? {
      assert s.sent[..s.rpos] + [s.sent[s.rpos]] == s.sent[..s.rpos + 1];
    }
  }

  lemma WriterKeeps(s: State, x: int)
    requires Inv(s)
    ensures Inv(WriterStep(s, x))
  {
    var s' := WriterStep(s, x);
    if s.writer.WByte? {
      forall k | s.rpos <= k < s.wpos ensures s'.buf[k % PIPEBUFSIZ] == s.sent[k] {
        SlotsDiffer(k, s.wpos);
      }
    } else if s.writer.WStore? {
      forall n | 0 <= n <= |s.sent| ensures s'.sent[..n] == s.sent[..n] { }
    }
  }

  // ------------------------------------------------------------------
  // Every run
  // ------------------------------------------------------------------

  ghost predicate Reaches(s: State, steps: seq<Step>, t: State)
    decreases |steps|
  {
    if steps == [] then t == s else |s.buf| == PIPEBUFSIZ && Reaches(Next(s, steps[0]), steps[1..], t)
  }

  lemma {:induction false} RunKeeps(s: State, steps: seq<Step>, t: State)
    requires Inv(s) && Reaches(s, steps, t)
    ensures Inv(t)
    decreases |steps|
  {
    if steps != [] {
      match steps[0] {
        case Read => ReaderKeeps(s);
        case Write(x) => WriterKeeps(s, x);
      }
      RunKeeps(Next(s, steps[0]), steps[1..], t);
    }
  }

  // Whatever the interleaving, the bytes delivered are a prefix of the bytes sent, at most
  // a buffer behind, and the positions never cross.
  lemma DeliversInOrder(s: State, steps: seq<Step>, t: State)
    requires Init(s) && Reaches(s, steps, t)
    ensures t.got <= t.sent
    ensures t.rpos <= t.wpos <= t.rpos + PIPEBUFSIZ
    ensures |t.sent| == t.wpos && t.rpos <= |t.got| <= t.rpos + 1
  {
    RunKeeps(s, steps, t);
  }

  // ------------------------------------------------------------------
  // One side alone
  // ------------------------------------------------------------------

  function Times(step: Step, n: nat): seq<Step> {
    if n == 0 then [] else [step] + Times(step, n - 1)
  }

  lemma OneMore(s: State, step: Step, n: nat, t: State)
    requires |s.buf| == PIPEBUFSIZ && Reaches(Next(s, step), Times(step, n), t)
    ensures Reaches(s, Times(step, n + 1), t)
  {
    assert Times(step, n + 1)[1..] == Times(step, n);
  }

  // How far the reader is from having taken the next byte.
  function Rank(s: State): nat {
    match s.reader
    case RStart => if s.rpos == s.wpos then 0 else 6
    case RWpos(_) => 5 case RIndex => 4 case RByte(_) => 3 case RNext => 2 case RStore(_) => 1
  }

  // In any state of any run: left to itself, the reader delivers all that was sent.
  lemma {:induction false} Drains(s: State) returns (n: nat, t: State)
    requires Inv(s)
    ensures Reaches(s, Times(Read, n), t) && t.got == s.sent == t.sent && t.reader == RStart
    decreases s.wpos - s.rpos, Rank(s)
  {
    if s.reader == RStart && s.rpos == s.wpos {
      n, t := 0, s;
      assert s.sent[..s.wpos] == s.sent;
    } else {
      ReaderKeeps(s);
      n, t := Drains(ReaderStep(s));
      OneMore(s, Read, n, t);
      n := n + 1;
    }
  }

  // One turn of the reader's loop: a byte if there is one, and nothing otherwise.
  lemma ReaderTurn(s: State)
    requires Inv(s) && s.reader == RStart
    ensures s.rpos == s.wpos ==> Reaches(s, Times(Read, 2), s)
    ensures s.rpos < s.wpos ==> Reaches(s, Times(Read, 6), s.(rpos := s.rpos + 1, got := s.got + [s.sent[s.rpos]]))
  {
    var s1 := s.(reader := RWpos(s.rpos));
    if s.rpos == s.wpos {
      OneMore(s1, Read, 0, s);
      OneMore(s, Read, 1, s);
    } else {
      var t := s.(rpos := s.rpos + 1, got := s.got + [s.sent[s.rpos]]);
      OneMore(t.(rpos := s.rpos, reader := RStore(s.rpos)), Read, 0, t);
      OneMore(t.(rpos := s.rpos, reader := RNext), Read, 1, t);
      OneMore(s.(reader := RByte(s.rpos)), Read, 2, t);
      OneMore(s.(reader := RIndex), Read, 3, t);
      OneMore(s1, Read, 4, t);
      OneMore(s, Read, 5, t);
    }
  }

  // One turn of the writer's: the byte is in the pipe if there is room, and nothing changes otherwise.
  lemma WriterTurn(s: State, x: int)
    requires Inv(s) && s.writer == WStart
    ensures s.wpos == s.rpos + PIPEBUFSIZ ==> Reaches(s, Times(Write(x), 2), s)
    ensures s.wpos < s.rpos + PIPEBUFSIZ ==>
              Reaches(s, Times(Write(x), 6), s.(wpos := s.wpos + 1, buf := s.buf[s.wpos % PIPEBUFSIZ := x], sent := s.sent + [x]))
  {
    var s1 := s.(writer := WRpos(s.wpos));
    if s.wpos == s.rpos + PIPEBUFSIZ {
      OneMore(s1, Write(x), 0, s);
      OneMore(s, Write(x), 1, s);
    } else {
      var s4 := s.(buf := s.buf[s.wpos % PIPEBUFSIZ := x]);
      var t := s4.(wpos := s.wpos + 1, sent := s.sent + [x]);
      OneMore(s4.(writer := WStore(s.wpos, x)), Write(x), 0, t);
      OneMore(s4.(writer := WNext(x)), Write(x), 1, t);
      OneMore(s.(writer := WByte(s.wpos)), Write(x), 2, t);
      OneMore(s.(writer := WIndex), Write(x), 3, t);
      OneMore(s1, Write(x), 4, t);
      OneMore(s, Write(x), 5, t);
    }
  }

  // Every byte sent in a run can still be delivered.
  lemma DeliversAll(s: State, steps: seq<Step>, t: State)
    requires Init(s) && Reaches(s, steps, t)
    ensures exists n, u :: Reaches(t, Times(Read, n), u) && u.got == t.sent
  {
    RunKeeps(s, steps, t);
    var n, u := Drains(t);
  }
}
