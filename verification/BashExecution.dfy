/** The two stream readers of a running command, interleaved at every await.

    Both readers share the order counter. A chunk is saved with the counter's value, then
    published (an await at which the other reader may run), and only then is the counter bumped
    and the shared buffer trimmed. Runs here have no cancellation, read error or publish error. */
module BashExecution {
  import opened Wrappers
  import opened BashNames

  const MAX_CONTENT_CHAR_LENGTH: nat := 1024 * 1024

  /** A command id and the length at which its output is cut into chunks. The service cuts at
      `MAX_CONTENT_CHAR_LENGTH`; everything below holds for any positive length. */
  datatype Command = Command(id: string, max: nat)

  function ServiceCommand(id: string): Command {
    Command(id, MAX_CONTENT_CHAR_LENGTH)
  }

  predicate ValidCommand(cmd: Command) {
    IsHex(cmd.id) && cmd.max > 0
  }

  datatype Stream = Stdout | Stderr

  datatype Pc = AtRead | Publishing | Finished

  /** `local` is the reader's own buffer, `shared` the one the final event is made from. The read
      pieces are split into those already read and those still to come. */
  datatype Reader = Reader(read: seq<string>, pending: seq<string>, local: string, shared: string, pc: Pc)

  datatype State = State(order: nat, out: Reader, err: Reader, saved: seq<BashEvent>, exited: bool)

  /** The time and id a saved event is given. */
  datatype Stamp = Stamp(at: Timestamp, id: string)

  datatype Action =
    | Read(stream: Stream, stamp: Stamp)
    | Published(stream: Stream, stamp: Stamp)
    | Eof(stream: Stream)
    | Exit(code: Option<int>, stamp: Stamp)

  function Start(out: seq<string>, err: seq<string>): State {
    State(0, Reader([], out, "", "", AtRead), Reader([], err, "", "", AtRead), [], false)
  }

  function Other(s: Stream): Stream {
    if s.Stdout? then Stderr else Stdout
  }

  function Of(st: State, s: Stream): Reader {
    if s.Stdout? then st.out else st.err
  }

  function With(st: State, s: Stream, r: Reader): State {
    if s.Stdout? then st.(out := r) else st.(err := r)
  }

  predicate Fresh(st: State, stamp: Stamp) {
    ValidTime(stamp.at) && IsHex(stamp.id) && forall e :: e in st.saved ==> e.id != stamp.id
  }

  predicate Enabled(st: State, a: Action) {
    match a
    case Read(s, stamp) => Of(st, s).pc.AtRead? && Of(st, s).pending != [] && Fresh(st, stamp)
    case Published(s, stamp) => Of(st, s).pc.Publishing? && Fresh(st, stamp)
    case Eof(s) => Of(st, s).pc.AtRead? && Of(st, s).pending == []
    case Exit(_, stamp) => st.out.pc.Finished? && st.err.pc.Finished? && !st.exited && Fresh(st, stamp)
  }

  function Chunk(cmd: Command, s: Stream, order: nat, text: string, stamp: Stamp): BashEvent {
    BashOutput(stamp.at, stamp.id, cmd.id, order, None,
               if s.Stdout? then Some(text) else None,
               if s.Stderr? then Some(text) else None)
  }

  /** Cut one chunk off a buffer that is too long; otherwise go back to reading. */
  function Cut(max: nat, r: Reader): (Reader, Option<string>) {
    if |r.local| > max then
      (r.(local := r.local[max..], pc := Publishing), Some(r.local[..max]))
    else
      (r.(pc := AtRead), None)
  }

  function SaveCut(cmd: Command, saved: seq<BashEvent>, s: Stream, order: nat, chunk: Option<string>, stamp: Stamp)
    : seq<BashEvent>
  {
    if chunk.Some? then saved + [Chunk(cmd, s, order, chunk.value, stamp)] else saved
  }

  /** The inner loop up to its next await: save one chunk if the buffer is too long. */
  function SplitOrRead(cmd: Command, st: State, s: Stream, stamp: Stamp): State {
    var (r, chunk) := Cut(cmd.max, Of(st, s));
    With(st, s, r).(saved := SaveCut(cmd, st.saved, s, st.order, chunk, stamp))
  }

  function NonEmpty(text: string): Option<string> {
    if text == "" then None else Some(text)
  }

  /** Append the next piece to both buffers. */
  function Feed(r: Reader): Reader
    requires r.pending != []
  {
    var buffer := r.local + r.pending[0];
    r.(read := r.read + [r.pending[0]], pending := r.pending[1..], local := buffer, shared := buffer)
  }

  /** After the publish: bump the counter, trim the shared buffer. */
  function Bump(st: State, s: Stream): State {
    With(st, s, Of(st, s).(shared := Of(st, s).local)).(order := st.order + 1)
  }

  function Apply(cmd: Command, st: State, a: Action): State
    requires Enabled(st, a)
  {
    match a
    case Read(s, stamp) => SplitOrRead(cmd, With(st, s, Feed(Of(st, s))), s, stamp)
    case Published(s, stamp) => SplitOrRead(cmd, Bump(st, s), s, stamp)
    case Eof(s) => With(st, s, Of(st, s).(pc := Finished))
    case Exit(code, stamp) =>
      var out, err := NonEmpty(st.out.shared), NonEmpty(st.err.shared);
      if out.Some? || err.Some? || code.Some? then
        st.(saved := st.saved + [BashOutput(stamp.at, stamp.id, cmd.id, st.order, code, out, err)], exited := true)
      else
        st.(exited := true)
  }

  // ---------------------------------------------------------------------------------------
  // What the saved events say
  // ---------------------------------------------------------------------------------------

  function StreamText(e: BashEvent, s: Stream): string {
    if !e.BashOutput? then ""
    else if s.Stdout? then (if e.stdout.Some? then e.stdout.value else "")
    else (if e.stderr.Some? then e.stderr.value else "")
  }

  /** `"".join(output.stdout for output in outputs if output.stdout)`, or the same for stderr. */
  function Join(es: seq<BashEvent>, s: Stream): string {
    if es == [] then "" else Join(es[..|es| - 1], s) + StreamText(es[|es| - 1], s)
  }

  function Text(pieces: seq<string>): string {
    if pieces == [] then "" else Text(pieces[..|pieces| - 1]) + pieces[|pieces| - 1]
  }

  lemma JoinSnoc(es: seq<BashEvent>, e: BashEvent, s: Stream)
    ensures Join(es + [e], s) == Join(es, s) + StreamText(e, s)
  {
    assert (es + [e])[..|es|] == es;
  }

  lemma TextSnoc(pieces: seq<string>, p: string)
    ensures Text(pieces + [p]) == Text(pieces) + p
  {
    assert (pieces + [p])[..|pieces|] == pieces;
  }

  /** `Text` joins the pieces read, */
  lemma {:induction false} TextMeans(a: seq<string>, b: seq<string>, p: string)
    ensures Text([]) == "" && Text([p]) == p && Text(a + b) == Text(a) + Text(b)
  {
    assert [p][..0] == [];
    if b == [] {
      assert a + b == a;
    } else {
      var last := |b| - 1;
      TextMeans(a, b[..last], p);
      assert (a + b)[..|a + b| - 1] == a + b[..last];
      Regroup(Text(a), Text(b[..last]), b[last]);
    }
  }

  /** and `Join` the texts of one stream in the events. */
  lemma {:induction false} JoinMeans(a: seq<BashEvent>, b: seq<BashEvent>, s: Stream, e: BashEvent)
    ensures Join([], s) == "" && Join(a + b, s) == Join(a, s) + Join(b, s)
    ensures e.BashOutput? ==> Join([e], Stdout) == (if e.stdout.Some? then e.stdout.value else "")
    ensures e.BashOutput? ==> Join([e], Stderr) == (if e.stderr.Some? then e.stderr.value else "")
  {
    assert [e][..0] == [];
    if b == [] {
      assert a + b == a;
    } else {
      var last := |b| - 1;
      JoinMeans(a, b[..last], s, e);
      assert (a + b)[..|a + b| - 1] == a + b[..last];
      Regroup(Join(a, s), Join(b[..last], s), StreamText(b[last], s));
    }
  }

  predicate Carries(e: BashEvent, s: Stream) {
    StreamText(e, s) != ""
  }

  // ---------------------------------------------------------------------------------------
  // Invariants at every await
  // ---------------------------------------------------------------------------------------

  /** An event saved while the command runs: one full chunk of one stream, and no exit code. */
  predicate IsChunk(cmd: Command, e: BashEvent) {
    && e.BashOutput? && e.commandId == cmd.id && WellFormed(e) && e.exitCode == None
    && ((e.stderr == None && e.stdout.Some? && |e.stdout.value| == cmd.max)
        || (e.stdout == None && e.stderr.Some? && |e.stderr.value| == cmd.max))
  }

  /** Nothing is lost or duplicated: what was saved for a stream, followed by the reader's buffer,
      is what was read; and the shared buffer lags by the chunk being published, if any. Only a buffer
      longer than the maximum is cut, so that there is always something left for the final event. */
  ghost predicate Conserves(max: nat, saved: seq<BashEvent>, r: Reader, s: Stream) {
    && Join(saved, s) + r.local == Text(r.read)
    && (r.local == "" ==> Text(r.read) == "")
    && (!r.pc.Publishing? ==> r.shared == r.local && |r.local| <= max)
    && (r.pc.Publishing? ==> |r.shared| == max + |r.local| && r.shared[max..] == r.local)
    && (r.pc.Finished? ==> r.pending == [])
  }

  /** The orders of a stream's saved events strictly increase and stay below `top`. */
  ghost predicate Increasing(saved: seq<BashEvent>, s: Stream, top: int) {
    && (forall i :: 0 <= i < |saved| && Carries(saved[i], s) ==> saved[i].order < top)
    && (forall i, j :: 0 <= i < j < |saved| && Carries(saved[i], s) && Carries(saved[j], s) ==>
          saved[i].order < saved[j].order)
  }

  /** What holds of one stream at every await; a chunk being published still has the counter's value. */
  ghost predicate StreamInv(max: nat, saved: seq<BashEvent>, order: nat, r: Reader, s: Stream) {
    Conserves(max, saved, r, s) && Increasing(saved, s, if r.pc.Publishing? then order + 1 else order)
  }

  ghost predicate DistinctIds(es: seq<BashEvent>) {
    forall i, j :: 0 <= i < j < |es| ==> es[i].id != es[j].id
  }

  ghost predicate ChunksOnly(cmd: Command, saved: seq<BashEvent>) {
    DistinctIds(saved) && forall e :: e in saved ==> IsChunk(cmd, e)
  }

  function Busy(r: Reader): nat {
    if r.pc.Publishing? then 1 else 0
  }

  /** The counter is the number of chunks published so far. */
  ghost predicate Running(cmd: Command, st: State) {
    && !st.exited
    && st.order + Busy(st.out) + Busy(st.err) == |st.saved|
    && ChunksOnly(cmd, st.saved)
    && StreamInv(cmd.max, st.saved, st.order, st.out, Stdout)
    && StreamInv(cmd.max, st.saved, st.order, st.err, Stderr)
  }

  lemma AppendIncreasing(saved: seq<BashEvent>, e: BashEvent, s: Stream, top: int)
    requires e.BashOutput? && Increasing(saved, s, top) && (Carries(e, s) ==> top <= e.order)
    ensures Increasing(saved + [e], s, if Carries(e, s) then e.order + 1 else top)
  {
    forall i | 0 <= i < |saved| && Carries(saved[i], s) ensures saved[i].BashOutput? {}
  }

  lemma TextAfterSave(saved: seq<BashEvent>, e: BashEvent, s: Stream, local: string, local': string, text: string)
    requires Join(saved, s) + local == text && local == StreamText(e, s) + local'
    ensures Join(saved + [e], s) + local' == text
  {
    JoinSnoc(saved, e, s);
    Regroup(Join(saved, s), StreamText(e, s), local');
  }

  /** The running reader: its buffer agrees with the shared one and the counter is above its chunks. */
  lemma OwnCut(cmd: Command, saved: seq<BashEvent>, order: nat, r: Reader, s: Stream, stamp: Stamp)
    requires Join(saved, s) + r.local == Text(r.read) && r.shared == r.local && Increasing(saved, s, order)
    requires r.local == "" ==> Text(r.read) == ""
    ensures StreamInv(cmd.max, SaveCut(cmd, saved, s, order, Cut(cmd.max, r).1, stamp), order, Cut(cmd.max, r).0, s)
  {
    var (r', chunk) := Cut(cmd.max, r);
    if chunk.Some? {
      var e := Chunk(cmd, s, order, chunk.value, stamp);
      assert r.local == r.local[..cmd.max] + r.local[cmd.max..];
      TextAfterSave(saved, e, s, r.local, r'.local, Text(r.read));
      assert Conserves(cmd.max, saved + [e], r', s);
      AppendIncreasing(saved, e, s, order);
    }
  }

  /** The other reader does not notice. */
  lemma OtherCut(cmd: Command, saved: seq<BashEvent>, order: nat, r: Reader, s: Stream, chunk: Option<string>,
                 stamp: Stamp)
    requires StreamInv(cmd.max, saved, order, r, Other(s))
    ensures StreamInv(cmd.max, SaveCut(cmd, saved, s, order, chunk, stamp), order, r, Other(s))
  {
    if chunk.Some? {
      var e := Chunk(cmd, s, order, chunk.value, stamp);
      TextAfterSave(saved, e, Other(s), r.local, r.local, Text(r.read));
      AppendIncreasing(saved, e, Other(s), if r.pc.Publishing? then order + 1 else order);
    }
  }

  lemma CutKeepsChunks(cmd: Command, st: State, s: Stream, stamp: Stamp)
    requires ValidCommand(cmd) && Fresh(st, stamp) && ChunksOnly(cmd, st.saved)
    ensures ChunksOnly(cmd, SaveCut(cmd, st.saved, s, st.order, Cut(cmd.max, Of(st, s)).1, stamp))
  {
  }

  lemma SplitKeepsRunning(cmd: Command, st: State, s: Stream, stamp: Stamp)
    requires ValidCommand(cmd) && Fresh(st, stamp) && !st.exited && ChunksOnly(cmd, st.saved)
    requires Join(st.saved, s) + Of(st, s).local == Text(Of(st, s).read) && Of(st, s).shared == Of(st, s).local
    requires Of(st, s).local == "" ==> Text(Of(st, s).read) == ""
    requires Increasing(st.saved, s, st.order)
    requires StreamInv(cmd.max, st.saved, st.order, Of(st, Other(s)), Other(s))
    requires st.order + Busy(Of(st, Other(s))) == |st.saved|
    ensures Running(cmd, SplitOrRead(cmd, st, s, stamp))
  {
    OwnCut(cmd, st.saved, st.order, Of(st, s), s, stamp);
    OtherCut(cmd, st.saved, st.order, Of(st, Other(s)), s, Cut(cmd.max, Of(st, s)).1, stamp);
    CutKeepsChunks(cmd, st, s, stamp);
  }

  lemma ReadKeepsRunning(cmd: Command, st: State, s: Stream, stamp: Stamp)
    requires ValidCommand(cmd) && Running(cmd, st) && Enabled(st, Read(s, stamp))
    ensures Running(cmd, Apply(cmd, st, Read(s, stamp)))
  {
    var r, piece := Of(st, s), Of(st, s).pending[0];
    TextSnoc(r.read, piece);
    Regroup(Join(st.saved, s), r.local, piece);
    SplitKeepsRunning(cmd, With(st, s, Feed(r)), s, stamp);
  }

  lemma BumpKeeps(max: nat, saved: seq<BashEvent>, order: nat, r: Reader, s: Stream)
    requires StreamInv(max, saved, order, r, s)
    ensures StreamInv(max, saved, order + 1, r, s)
  {
  }

  lemma BothStreams(cmd: Command, st: State, s: Stream)
    requires Running(cmd, st)
    ensures StreamInv(cmd.max, st.saved, st.order, Of(st, s), s)
    ensures StreamInv(cmd.max, st.saved, st.order, Of(st, Other(s)), Other(s))
  {
  }

  lemma BumpFrame(st: State, s: Stream)
    ensures Of(Bump(st, s), s) == Of(st, s).(shared := Of(st, s).local)
    ensures Of(Bump(st, s), Other(s)) == Of(st, Other(s))
    ensures Bump(st, s).saved == st.saved && Bump(st, s).order == st.order + 1 && Bump(st, s).exited == st.exited
  {
  }

  lemma PublishedKeepsRunning(cmd: Command, st: State, s: Stream, stamp: Stamp)
    requires ValidCommand(cmd) && Running(cmd, st) && Enabled(st, Published(s, stamp))
    ensures Running(cmd, Apply(cmd, st, Published(s, stamp)))
  {
    BothStreams(cmd, st, s);
    BumpKeeps(cmd.max, st.saved, st.order, Of(st, Other(s)), Other(s));
    BumpFrame(st, s);
    SplitKeepsRunning(cmd, Bump(st, s), s, stamp);
  }

  lemma StepKeepsRunning(cmd: Command, st: State, a: Action)
    requires ValidCommand(cmd) && Running(cmd, st) && Enabled(st, a) && !a.Exit?
    ensures Running(cmd, Apply(cmd, st, a))
  {
    match a
    case Read(s, stamp) => ReadKeepsRunning(cmd, st, s, stamp);
    case Published(s, stamp) => PublishedKeepsRunning(cmd, st, s, stamp);
    case Eof(s) =>
  }

  // ---------------------------------------------------------------------------------------
  // Runs
  // ---------------------------------------------------------------------------------------

  /** The state after a sequence of steps, if each was possible. */
  function Run(cmd: Command, st: State, actions: seq<Action>): Option<State> {
    if actions == [] then Some(st)
    else
      var before := Run(cmd, st, actions[..|actions| - 1]);
      if before.Some? && Enabled(before.value, actions[|actions| - 1]) then
        Some(Apply(cmd, before.value, actions[|actions| - 1]))
      else
        None
  }

  /** Orders can tie across the streams: when both first pieces are too long and the second reader
      runs while the first is publishing, both chunks are saved with order 0. */
  lemma OrdersCanTie(cmd: Command, p: string, q: string, a: Stamp, b: Stamp)
    requires |p| > cmd.max && |q| > cmd.max
    requires ValidTime(a.at) && ValidTime(b.at) && IsHex(a.id) && IsHex(b.id) && a.id != b.id
    ensures var r := Run(cmd, Start([p], [q]), [Read(Stdout, a), Read(Stderr, b)]);
            r.Some? && r.value.saved == [Chunk(cmd, Stdout, 0, p[..cmd.max], a), Chunk(cmd, Stderr, 0, q[..cmd.max], b)]
  {
    var s0 := Start([p], [q]);
    var actions := [Read(Stdout, a), Read(Stderr, b)];
    assert actions[..1] == [actions[0]] && actions[..1][..0] == [];
    assert "" + p == p && "" + q == q;
    assert Run(cmd, s0, []) == Some(s0);
    assert Run(cmd, s0, actions[..1]) == Some(Apply(cmd, s0, actions[0]));
    assert Apply(cmd, s0, actions[0]).saved == [Chunk(cmd, Stdout, 0, p[..cmd.max], a)];
  }

  /** The pieces a reader was given never change. */
  predicate SamePieces(out: seq<string>, err: seq<string>, st: State) {
    st.out.read + st.out.pending == out && st.err.read + st.err.pending == err
  }

  lemma StepKeepsPieces(cmd: Command, out: seq<string>, err: seq<string>, st: State, a: Action)
    requires Enabled(st, a) && SamePieces(out, err, st)
    ensures SamePieces(out, err, Apply(cmd, st, a))
  {
    if a.Read? {
      var r := Of(st, a.stream);
      assert r.read + [r.pending[0]] + r.pending[1..] == r.read + r.pending;
    }
  }

  /** What a finished command has saved: both texts in full, orders that rise within each stream,
      full chunks only before the final event, and a final event that carries the exit code, the
      greatest order, and the end of every stream that had any text. */
  ghost predicate Completed(cmd: Command, out: seq<string>, err: seq<string>, code: Option<int>,
                            saved: seq<BashEvent>)
  {
    && (forall e :: e in saved ==> e.BashOutput? && e.commandId == cmd.id && WellFormed(e))
    && DistinctIds(saved)
    && Join(saved, Stdout) == Text(out) && Join(saved, Stderr) == Text(err)
    && Rises(saved, Stdout) && Rises(saved, Stderr)
    && (forall i :: 0 <= i < |saved| - 1 ==> IsChunk(cmd, saved[i]))
    && (Text(out) != "" ==> saved != [] && LastText(saved, Stdout))
    && (Text(err) != "" ==> saved != [] && LastText(saved, Stderr))
    && (code.None? ==> forall e :: e in saved ==> e.exitCode == None)
    && (code.Some? ==> saved != [] && Final(cmd.max, saved, code))
  }

  /** The final event carries text of this stream. */
  predicate LastText(saved: seq<BashEvent>, s: Stream)
    requires saved != []
  {
    var last := saved[|saved| - 1];
    && last.BashOutput?
    && (s.Stdout? ==> last.stdout.Some? && last.stdout.value != "")
    && (s.Stderr? ==> last.stderr.Some? && last.stderr.value != "")
  }

  ghost predicate Rises(saved: seq<BashEvent>, s: Stream) {
    forall i, j :: 0 <= i < j < |saved| && Carries(saved[i], s) && Carries(saved[j], s) ==>
                     saved[i].order < saved[j].order
  }

  ghost predicate Final(max: nat, saved: seq<BashEvent>, code: Option<int>)
    requires saved != [] && forall e :: e in saved ==> e.BashOutput?
  {
    var last := saved[|saved| - 1];
    && last.exitCode == code && last.order == |saved| - 1
    && |StreamText(last, Stdout)| <= max && |StreamText(last, Stderr)| <= max
    && forall i :: 0 <= i < |saved| - 1 ==> saved[i].order < last.order
  }

  lemma ChunksBelow(cmd: Command, saved: seq<BashEvent>, order: int)
    requires ValidCommand(cmd) && ChunksOnly(cmd, saved)
    requires Increasing(saved, Stdout, order) && Increasing(saved, Stderr, order)
    ensures forall i :: 0 <= i < |saved| ==> IsChunk(cmd, saved[i]) && saved[i].order < order
  {
    forall i | 0 <= i < |saved| ensures IsChunk(cmd, saved[i]) && saved[i].order < order {
      assert saved[i] in saved;
      assert Carries(saved[i], Stdout) || Carries(saved[i], Stderr);
    }
  }

  lemma FinalText(cmd: Command, saved: seq<BashEvent>, e: BashEvent, r: Reader, s: Stream, order: nat)
    requires StreamInv(cmd.max, saved, order, r, s) && r.pc.Finished?
    requires e.BashOutput? && e.order == order && StreamText(e, s) == r.local
    ensures Join(saved + [e], s) == Text(r.read) && Rises(saved + [e], s)
  {
    JoinSnoc(saved, e, s);
    AppendIncreasing(saved, e, s, order);
  }

  lemma AppendFinal(cmd: Command, saved: seq<BashEvent>, last: BashEvent)
    requires ValidCommand(cmd) && ChunksOnly(cmd, saved)
    requires last.BashOutput? && forall i :: 0 <= i < |saved| ==> IsChunk(cmd, saved[i]) && saved[i].order < last.order
    requires last.commandId == cmd.id && WellFormed(last) && (forall e :: e in saved ==> e.id != last.id)
    requires last.order == |saved|
    requires |StreamText(last, Stdout)| <= cmd.max && |StreamText(last, Stderr)| <= cmd.max
    ensures forall e :: e in saved + [last] ==> e.BashOutput? && e.commandId == cmd.id && WellFormed(e)
    ensures DistinctIds(saved + [last])
    ensures forall i :: 0 <= i < |saved + [last]| - 1 ==> IsChunk(cmd, (saved + [last])[i])
    ensures Final(cmd.max, saved + [last], last.exitCode)
    ensures last.exitCode == None ==> forall e :: e in saved + [last] ==> e.exitCode == None
  {
  }

  lemma FinalCompletes(cmd: Command, st: State, last: BashEvent)
    requires ValidCommand(cmd) && Running(cmd, st) && st.out.pc.Finished? && st.err.pc.Finished?
    requires last.BashOutput? && last.commandId == cmd.id && WellFormed(last) && last.order == st.order
    requires forall e :: e in st.saved ==> e.id != last.id
    requires StreamText(last, Stdout) == st.out.local && StreamText(last, Stderr) == st.err.local
    ensures Completed(cmd, st.out.read, st.err.read, last.exitCode, st.saved + [last])
  {
    ChunksBelow(cmd, st.saved, st.order);
    AppendFinal(cmd, st.saved, last);
    FinalText(cmd, st.saved, last, st.out, Stdout, st.order);
    FinalText(cmd, st.saved, last, st.err, Stderr, st.order);
  }

  lemma ExitCompletes(cmd: Command, out: seq<string>, err: seq<string>, st: State, code: Option<int>, stamp: Stamp)
    requires ValidCommand(cmd) && Running(cmd, st) && Enabled(st, Exit(code, stamp)) && SamePieces(out, err, st)
    ensures Completed(cmd, out, err, code, Apply(cmd, st, Exit(code, stamp)).saved)
  {
    assert st.out.read == out && st.err.read == err;
    var o, e := NonEmpty(st.out.shared), NonEmpty(st.err.shared);
    if o.Some? || e.Some? || code.Some? {
      var last := BashOutput(stamp.at, stamp.id, cmd.id, st.order, code, o, e);
      FinalCompletes(cmd, st, last);
    } else {
      ChunksBelow(cmd, st.saved, st.order);
      assert Join(st.saved, Stdout) + "" == Join(st.saved, Stdout);
      assert Join(st.saved, Stderr) + "" == Join(st.saved, Stderr);
    }
  }

  /** The code the process exited with, in a run that has finished. */
  function ExitCode(actions: seq<Action>): Option<int> {
    if actions != [] && actions[|actions| - 1].Exit? then actions[|actions| - 1].code else None
  }

  /** Every interleaving of the two readers: the invariants hold at each await, and a run that has
      finished has saved exactly the text of both streams and the exit code. */
  lemma {:induction false} EveryRun(cmd: Command, out: seq<string>, err: seq<string>, actions: seq<Action>)
    requires ValidCommand(cmd)
    requires Run(cmd, Start(out, err), actions).Some?
    ensures var st := Run(cmd, Start(out, err), actions).value;
            && SamePieces(out, err, st)
            && (!st.exited ==> Running(cmd, st))
            && (st.exited ==>
                  && actions != [] && actions[|actions| - 1].Exit?
                  && st.out.pc.Finished? && st.err.pc.Finished?
                  && Completed(cmd, out, err, ExitCode(actions), st.saved))
  {
    if actions != [] {
      var front, a := actions[..|actions| - 1], actions[|actions| - 1];
      EveryRun(cmd, out, err, front);
      var st := Run(cmd, Start(out, err), front).value;
      StepKeepsPieces(cmd, out, err, st, a);
      if a.Exit? {
        ExitCompletes(cmd, out, err, st, a.code, a.stamp);
      } else {
        StepKeepsRunning(cmd, st, a);
      }
    }
  }

  /** The events of a command run by the service: all but the last hold 1048576 characters of one
      stream, the last at most as many of each. */
  lemma ServiceChunks(id: string, out: seq<string>, err: seq<string>, actions: seq<Action>, i: nat)
    requires IsHex(id) && Run(ServiceCommand(id), Start(out, err), actions).Some?
    requires var st := Run(ServiceCommand(id), Start(out, err), actions).value; st.exited && i < |st.saved|
    requires ExitCode(actions).Some?
    ensures var e := Run(ServiceCommand(id), Start(out, err), actions).value.saved[i];
            && e.BashOutput?
            && (i < |Run(ServiceCommand(id), Start(out, err), actions).value.saved| - 1 ==>
                  || (e.stderr == None && e.stdout.Some? && |e.stdout.value| == 1048576)
                  || (e.stdout == None && e.stderr.Some? && |e.stderr.value| == 1048576))
            && (e.stdout.Some? ==> |e.stdout.value| <= 1048576)
            && (e.stderr.Some? ==> |e.stderr.value| <= 1048576)
  {
    EveryRun(ServiceCommand(id), out, err, actions);
    var saved := Run(ServiceCommand(id), Start(out, err), actions).value.saved;
    assert saved[i] in saved && saved[|saved| - 1] in saved;
    assert i < |saved| - 1 ==> IsChunk(ServiceCommand(id), saved[i]);
  }

  /** A command that has not exited can always go on, whatever the interleaving. */
  lemma NeverStuck(st: State, stamp: Stamp)
    requires !st.exited && Fresh(st, stamp)
    ensures || Enabled(st, Read(Stdout, stamp)) || Enabled(st, Read(Stderr, stamp))
            || Enabled(st, Published(Stdout, stamp)) || Enabled(st, Published(Stderr, stamp))
            || Enabled(st, Eof(Stdout)) || Enabled(st, Eof(Stderr))
            || forall code :: Enabled(st, Exit(code, stamp))
  {
    assert st.out.pc.AtRead? || st.out.pc.Publishing? || st.out.pc.Finished?;
  }
}
