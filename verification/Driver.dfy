/** The host's side of incremental parsing: feeding a parser chunk by chunk. */
module Driver {
  import opened Basics
  import opened Waiting
  import opened Parsing

  datatype Kind = Stream | Block

  /** How a call comes back: parsing is over or goes on, an exception passes through, an internal error
      stops the program, or the call never returns. */
  datatype Return = Over | Continue | Throws(error: Error) | InternalError | Hangs

  /** What the host sets: a parser, with the context it is given, and whether it can be started from outside, without
      arguments. */
  datatype Unit<!S, +R> = Unit(parser: Parser<S, R>, external: bool)

  /** `input` is the stream with its frozen flag; `running` the parser that was started on it, and `resumable` where
      that is suspended, or how it finished. */
  datatype Session<!S, +R> = Session(
    skip: bool,
    done: bool,
    input: Option<(seq<Entry>, bool)>,
    running: Option<Parser<S, R>>,
    resumable: Option<Outcome<S, R>>)

  function Fresh<S, R>(): Session<S, R> {
    Session(false, false, None, None, None)
  }

  function Begin<S, R>(p: Parser<S, R>, steps: nat): Config<S> {
    Config(p.start, View(0, None), steps)
  }

  /** What a live session looks like: not begun, or waiting for more of an open stream. */
  ghost predicate Live<S, R>(s: Session<S, R>) {
    s.done ||
    if s.input.None? then s.resumable.None?
    else !s.input.value.1 && s.running.Some? && s.resumable.Some? && s.resumable.value.Suspended?
  }

  /** Runs the parser from its beginning, or from where it is suspended, with `chunk` added to the input. */
  function Advance<S, R>(p: Parser<S, R>, steps: nat, s: Session<S, R>, chunk: seq<Entry>, eod: bool, near: Near)
      : Outcome<S, R>
    requires Live(s) && !s.done
  {
    if s.input.None? then Run(p, Begin(p, steps), chunk, eod, near)
    else Run(s.running.value, s.resumable.value.at, s.input.value.0 + chunk, eod, near)
  }

  /** One call of the feeding interface; `eod` marks the last. What is fed may be data or a gap. */
  function Process<S, R>(kind: Kind, unit: Option<Unit<S, R>>, steps: nat, s: Session<S, R>, chunk: seq<Entry>,
                         eod: bool, near: Near)
      : (Session<S, R>, Return)
    requires kind == Stream ==> Live(s)
  {
    if unit.None? || s.skip then (s, Over)
    else if kind == Block then
      if !unit.value.external then (s.(done := true), Throws(InvalidUnitType))
      else
        var p := unit.value.parser;
        var out := Run(p, Begin(p, steps), chunk, true, near);
        match out
        case Finished(_, _) => (s.(resumable := Some(out)), Over)
        case Failed(e) => (s.(done := true), Throws(e))
        case Suspended(_) => (s.(resumable := Some(out)), InternalError)
        case Diverged => (s, Hangs)
    else if s.done then (s, Over)
    else
      var first := s.input.None?;
      var t := s.(input := Some(((if first then [] else s.input.value.0) + chunk, eod)));
      if first && !unit.value.external then (t.(done := true), Throws(InvalidUnitType))
      else
        var u := if first then t.(running := Some(unit.value.parser)) else t;
        var out := Advance(unit.value.parser, steps, s, chunk, eod, near);
        match out
        case Finished(_, _) => (u.(resumable := Some(out), done := true), Over)
        case Failed(e) => (u.(resumable := if first then None else Some(out), done := true), Throws(e))
        case Suspended(_) => (u.(resumable := Some(out)), if eod then InternalError else Continue)
        case Diverged => (u, Hangs)
  }

  /** Once a stream has begun, exchanging the parser for another one makes no difference to it. */
  lemma ExchangeHasNoEffect<S, R>(u: Unit<S, R>, u': Unit<S, R>, steps: nat, s: Session<S, R>, chunk: seq<Entry>,
                                  eod: bool, near: Near)
    requires Live(s) && s.input.Some?
    ensures Process(Stream, Some(u), steps, s, chunk, eod, near)
            == Process(Stream, Some(u'), steps, s, chunk, eod, near)
  {
  }

  /** Taking the parser away does make a difference, whenever there was something to do: what comes then is ignored. */
  lemma WithdrawalExactly<S, R>(u: Unit<S, R>, steps: nat, s: Session<S, R>, chunk: seq<Entry>, eod: bool,
                               near: Near)
    requires Live(s)
    ensures Process(Stream, None, steps, s, chunk, eod, near) == (s, Over)
    ensures Process(Stream, Some(u), steps, s, chunk, eod, near) == (s, Over) <==> s.skip || s.done
  {
  }

  /** The host's view of a parser's whole life. */
  datatype Report<+R> = Returned(result: Option<(R, nat)>) | Threw(error: Error) | Hung | Crashed

  function ResultOf<S, R>(s: Session<S, R>): Option<(R, nat)> {
    if s.resumable.Some? && s.resumable.value.Finished? then
      Some((s.resumable.value.result, s.resumable.value.offset))
    else None
  }

  /** Where the unit that was parsed ends, if there is one. */
  function OffsetOf<R>(result: Option<(R, nat)>): Option<nat> {
    if result.Some? then Some(result.value.1) else None
  }

  /** A call on a stream that is neither over nor to be skipped says that parsing is over exactly if there is a result
      now, and that it goes on exactly if parsing is not over. */
  lemma ReturnExactly<S, R>(u: Unit<S, R>, steps: nat, s: Session<S, R>, chunk: seq<Entry>, eod: bool, near: Near)
    requires Live(s) && !s.done && !s.skip
    ensures var (t, r) := Process(Stream, Some(u), steps, s, chunk, eod, near);
            && r != InternalError
            && (r == Over <==> ResultOf(t).Some?)
            && (r == Continue <==> !t.done && r != Hangs)
            && (r == Over || r.Throws? <==> t.done)
            && (r == Continue ==> !eod && t.resumable.Some? && t.resumable.value.Suspended?)
  {
    if s.input.Some? {
      FrozenNeverSuspends(s.running.value, s.resumable.value.at, s.input.value.0 + chunk, near);
    } else {
      FrozenNeverSuspends(u.parser, Begin(u.parser, steps), chunk, near);
    }
  }

  /** A block is over at once, with a result exactly if no exception is thrown. */
  lemma BlockReturnExactly<S, R>(u: Unit<S, R>, steps: nat, s: Session<S, R>, block: seq<Entry>, eod: bool, near: Near)
    requires !s.skip && s.resumable.None?
    ensures var (t, r) := Process(Block, Some(u), steps, s, block, eod, near);
            && r != InternalError && r != Continue && (r == Over <==> ResultOf(t).Some?) && (r.Throws? ==> t.done)
  {
    FrozenNeverSuspends(u.parser, Begin(u.parser, steps), block, near);
  }

  /** A parser that needs arguments cannot be started, whatever it is given. */
  lemma NeedsNoArguments<S, R>(kind: Kind, u: Unit<S, R>, steps: nat, chunk: seq<Entry>, eod: bool, near: Near)
    requires !u.external
    ensures var (t, r) := Process(kind, Some(u), steps, Fresh(), chunk, eod, near);
            r == Throws(InvalidUnitType) && t.done && ResultOf(t).None?
  {
  }

  /** Feeds `chunks` one by one and then finishes. An exception must be the only one, and leave no result;
      any other course of events counts as a crash. */
  function Feed<S, R>(p: Parser<S, R>, steps: nat, s: Session<S, R>, chunks: seq<seq<Entry>>, near: Near): Report<R>
    requires Live(s)
    decreases |chunks|
  {
    if |chunks| == 0 then
      var (t, r) := Process(Stream, Some(Unit(p, true)), steps, s, [], true, near);
      match r
      case Throws(e) => if ResultOf(t).None? then Threw(e) else Crashed
      case Hangs => Hung
      case InternalError => Crashed
      case _ => Returned(ResultOf(t))
    else
      var (t, r) := Process(Stream, Some(Unit(p, true)), steps, s, chunks[0], false, near);
      match r
      case Throws(e) => if Feed(p, steps, t, chunks[1..], near) == Returned(None) then Threw(e) else Crashed
      case Hangs => Hung
      case InternalError => Crashed
      case _ => Feed(p, steps, t, chunks[1..], near)
  }

  /** What the host should see of a run on the whole input at once. */
  function Expected<S, R>(out: Outcome<S, R>): Report<R> {
    match out
    case Finished(r, o) => Returned(Some((r, o)))
    case Failed(e) => Threw(e)
    case Diverged => Hung
    case Suspended(_) => Crashed
  }

  /** Calls after parsing is over change nothing. */
  lemma {:induction false} FeedDone<S, R>(p: Parser<S, R>, steps: nat, s: Session<S, R>, chunks: seq<seq<Entry>>,
                                          near: Near)
    requires s.done
    ensures Feed(p, steps, s, chunks, near) == Returned(ResultOf(s))
    decreases |chunks|
  {
    if |chunks| > 0 {
      FeedDone(p, steps, s, chunks[1..], near);
    }
  }

  /** Whatever a parser does, and whatever it is fed: it does not come to the internal error, and an exception is the
      only one and leaves no result. */
  lemma {:induction false} NeverCrashes<S, R>(p: Parser<S, R>, steps: nat, s: Session<S, R>, chunks: seq<seq<Entry>>,
                                              near: Near)
    requires Live(s)
    ensures Feed(p, steps, s, chunks, near) != Crashed
    decreases |chunks|
  {
    if s.done {
      FeedDone(p, steps, s, chunks, near);
    } else if |chunks| == 0 {
      LastNeverSuspends(p, steps, s, near);
    } else {
      var (t, r) := Process(Stream, Some(Unit(p, true)), steps, s, chunks[0], false, near);
      if r.Throws? {
        FeedDone(p, steps, t, chunks[1..], near);
      } else if !r.Hangs? {
        NeverCrashes(p, steps, t, chunks[1..], near);
      }
    }
  }

  lemma LastNeverSuspends<S, R>(p: Parser<S, R>, steps: nat, s: Session<S, R>, near: Near)
    requires Live(s) && !s.done
    ensures !Advance(p, steps, s, [], true, near).Suspended?
  {
    if s.input.None? {
      FrozenNeverSuspends(p, Begin(p, steps), [], near);
    } else {
      FrozenNeverSuspends(s.running.value, s.resumable.value.at, s.input.value.0 + [], near);
    }
  }

  /** Where the session stands: at `c`, having been given `data`. */
  ghost predicate At<S, R>(p: Parser<S, R>, steps: nat, s: Session<S, R>, data: seq<Entry>, c: Config<S>) {
    && Live(s) && !s.done && !s.skip
    && (if s.input.None? then data == [] && c == Begin(p, steps)
        else data == s.input.value.0 && s.running == Some(p) && c == s.resumable.value.at)
  }

  lemma {:induction false} FeedFrom<S, R>(p: Parser<S, R>, steps: nat, s: Session<S, R>, chunks: seq<seq<Entry>>,
                                          near: Near, data: seq<Entry>, c: Config<S>, input: seq<Entry>, known: nat,
                                          near': Near)
    requires At(p, steps, s, data, c) && input == data + Flatten(chunks)
    requires known <= |data| && Disciplined(p, c, input, known)
    ensures Feed(p, steps, s, chunks, near) == Expected(Run(p, c, input, true, near'))
    decreases |chunks|
  {
    FrozenNeverSuspends(p, c, input, near);
    if |chunks| == 0 {
      assert data + [] == data == input == input[..|input|];
      var _ := RunOnPart(p, c, input, |input|, true, known, near, near');
    } else {
      var next := data + chunks[0];
      assert input == next + Flatten(chunks[1..]);
      assert input[..|next|] == next;
      var known' := RunOnPart(p, c, input, |next|, false, known, near, near');
      assert data == [] ==> next == chunks[0];
      var out := Advance(p, steps, s, chunks[0], false, near);
      assert out == Run(p, c, next, false, near);
      var t := Process(Stream, Some(Unit(p, true)), steps, s, chunks[0], false, near).0;
      if out.Suspended? {
        FeedFrom(p, steps, t, chunks[1..], near, next, out.at, input, known', near');
      } else if out.Finished? || out.Failed? {
        FeedDone(p, steps, t, chunks[1..], near);
      }
    }
  }

  /** Main result: for every way of cutting an input into calls, and whatever the chunks of the stream and what views
      remember of them, a disciplined parser ends with the same result and offset, or the same single error, as when it
      is given the whole input frozen. It holds for every step budget. */
  lemma CutsDoNotMatter<S, R>(p: Parser<S, R>, steps: nat, chunks: seq<seq<Entry>>, near: Near, near': Near)
    requires Disciplined(p, Begin(p, steps), Flatten(chunks), 0)
    ensures Feed(p, steps, Fresh(), chunks, near) == Expected(Run(p, Begin(p, steps), Flatten(chunks), true, near'))
  {
    assert Flatten(chunks) == [] + Flatten(chunks);
    FeedFrom(p, steps, Fresh(), chunks, near, [], Begin(p, steps), Flatten(chunks), 0, near');
  }

  /** Hence any two ways of cutting the same input give the same report. */
  lemma SameForAllCuts<S, R>(p: Parser<S, R>, steps: nat, chunks: seq<seq<Entry>>, near: Near,
                             chunks': seq<seq<Entry>>, near': Near)
    requires Flatten(chunks) == Flatten(chunks') && Disciplined(p, Begin(p, steps), Flatten(chunks), 0)
    ensures Feed(p, steps, Fresh(), chunks, near) == Feed(p, steps, Fresh(), chunks', near')
  {
    CutsDoNotMatter(p, steps, chunks, near, near);
    CutsDoNotMatter(p, steps, chunks', near', near);
  }

  /** In particular, parsers that wait for what they take can rely on it, on all suitable inputs. */
  lemma CutsDoNotMatterToGuarded<S(!new), R>(p: Parser<S, R>, waited: S -> nat, complete: S -> bool, steps: nat,
                                             chunks: seq<seq<Entry>>, near: Near, near': Near)
    requires Guarded(p, waited, complete) && Suitable(p, Flatten(chunks))
    ensures Feed(p, steps, Fresh(), chunks, near) == Feed(p, steps, Fresh(), [Flatten(chunks)], near')
  {
    GuardedIsDisciplined(p, waited, complete, steps, Flatten(chunks));
    assert Flatten([Flatten(chunks)]) == Flatten(chunks);
    SameForAllCuts(p, steps, chunks, near, [Flatten(chunks)], near');
  }

  datatype Progress = AtLength | LengthThere | AtBody(n: nat) | BodyThere(n: nat) | Complete(body: seq<byte>)

  function NextProgress(s: Progress): Op<seq<byte>> {
    match s
    case AtLength => WaitForInput(1, "expecting a length")
    case LengthThere => Extract(1)
    case AtBody(n) => WaitForInput(n, "expecting a body")
    case BodyThere(n) => Extract(n)
    case Complete(body) => Finish(body)
  }

  function Progressed(s: Progress, reply: Reply): Progress {
    match s
    case AtLength => LengthThere
    case LengthThere => if reply.Data? && |reply.bytes| == 1 then AtBody(reply.bytes[0] as nat) else AtBody(0)
    case AtBody(n) => BodyThere(n)
    case BodyThere(_) => Complete(if reply.Data? then reply.bytes else [])
    case Complete(_) => s
  }

  /** A parser for a byte that says how many bytes follow, and these. */
  function LengthPrefixed(): Parser<Progress, seq<byte>> {
    Parser(AtLength, NextProgress, Progressed)
  }

  function WaitedFor(s: Progress): nat {
    match s
    case LengthThere => 1
    case BodyThere(n) => n
    case _ => 0
  }

  /** That parser is guarded, so it gives the same result for all cuts of an input without gaps. */
  lemma LengthPrefixedForAllCuts(steps: nat, chunks: seq<seq<Entry>>, near: Near, near': Near)
    requires |Flatten(chunks)| < TWO_TO_THE_64 - 1 && !HasGap(Flatten(chunks))
    ensures Guarded(LengthPrefixed(), WaitedFor, s => false)
    ensures Feed(LengthPrefixed(), steps, Fresh(), chunks, near)
            == Feed(LengthPrefixed(), steps, Fresh(), [Flatten(chunks)], near')
  {
    CutsDoNotMatterToGuarded(LengthPrefixed(), WaitedFor, s => false, steps, chunks, near, near');
  }

  /** The outcome of that parser: for every input without gaps, the body, which ends where its length says; or else the
      message of the wait that failed. */
  function Body(input: seq<Entry>): Report<seq<byte>> {
    if |input| == 0 then Threw(ParseError("expecting a length"))
    else
      var n := Values(input)[0] as nat;
      if |input| < 1 + n then Threw(ParseError("expecting a body"))
      else Returned(Some((Values(input)[1..1 + n], 1 + n)))
  }

  lemma LengthPrefixedRuns(input: seq<Entry>, steps: nat, near: Near)
    requires !HasGap(input) && steps >= 5
    ensures Expected(Run(LengthPrefixed(), Begin(LengthPrefixed(), steps), input, true, near)) == Body(input)
  {
    var p, c0 := LengthPrefixed(), Begin(LengthPrefixed(), steps);
    if |input| == 0 {
      WaitFails(p, c0, input, near, 1, "expecting a length");
      return;
    }
    var c1 := Config(LengthThere, View(0, None), steps - 1);
    WaitFails(p, c0, input, near, 1, "expecting a length");
    var n := Values(input)[0] as nat;
    TakenIs(View(0, None), 1, input);
    var c2 := Config(AtBody(n), View(1, None), steps - 2);
    assert After(p, c1, Step(p, c1, input, true, near)) == c2;
    assert Run(p, c1, input, true, near) == Run(p, c2, input, true, near);
    WaitFails(p, c2, input, near, n, "expecting a body");
    if |input| >= 1 + n {
      var c3 := Config(BodyThere(n), View(1, None), steps - 3);
      TakenIs(View(1, None), n, input);
      var c4 := Config(Complete(Values(input)[1..1 + n]), View(1 + n, None), steps - 4);
      assert After(p, c3, Step(p, c3, input, true, near)) == c4;
      assert Run(p, c3, input, true, near) == Run(p, c4, input, true, near);
      EndsRun(p, c4, input, true, near);
    }
  }

  lemma TakenIs(v: View, n: nat, input: seq<Entry>)
    requires !HasGap(input) && v.end.None? && v.begin + n <= |input|
    ensures forall shortcut :: (shortcut ==> v.begin + n < |input|) ==>
              Take(v, n, input, shortcut) == Goes(Data(Values(input)[v.begin..v.begin + n]), View(v.begin + n, None))
  {
    var taken := input[v.begin..v.begin + n];
    assert Values(taken) == Values(input)[v.begin..v.begin + n];
  }

  /** So it parses its format right, for all cuts and on all streams. */
  lemma LengthPrefixedParses(steps: nat, chunks: seq<seq<Entry>>, near: Near)
    requires steps >= 5 && |Flatten(chunks)| < TWO_TO_THE_64 - 1 && !HasGap(Flatten(chunks))
    ensures Feed(LengthPrefixed(), steps, Fresh(), chunks, near) == Body(Flatten(chunks))
  {
    var p := LengthPrefixed();
    GuardedIsDisciplined(p, WaitedFor, s => false, steps, Flatten(chunks));
    CutsDoNotMatter(p, steps, chunks, near, near);
    LengthPrefixedRuns(Flatten(chunks), steps, near);
  }

  /** A parser that takes a byte without waiting for it. */
  function Eager(): Parser<bool, ()> {
    Parser(false, got => if got then Finish(()) else Extract(1), (got, reply) => true)
  }

  /** Without discipline the cuts matter: given a byte the eager parser succeeds, but if an empty chunk
      comes first it fails. */
  lemma CutsMatterToEager(x: byte, near: Near)
    ensures Feed(Eager(), 2, Fresh(), [[Some(x)]], near) == Returned(Some(((), 1)))
    ensures Feed(Eager(), 2, Fresh(), [[], [Some(x)]], near) == Threw(WouldBlock)
  {
    var p := Eager();
    var c, data := Begin(p, 2), [Some(x)];
    assert Step(p, c, data, false, near).Goes?;
    assert Run(p, Config(true, View(1, None), 1), data, false, near) == Finished((), 1);
    var (t, r) := Process(Stream, Some(Unit(p, true)), 2, Fresh<bool, ()>(), data, false, near);
    assert [data][1..] == [];
    FeedDone(p, 2, t, [], near);
    var (t', r') := Process(Stream, Some(Unit(p, true)), 2, Fresh<bool, ()>(), [], false, near);
    assert [[], data][1..] == [data];
    FeedDone(p, 2, t', [data], near);
  }

  // ---------------------------------------------------------------- where chunks matter

  /** Two positions lie in one chunk. */
  function Together(chunks: seq<seq<Entry>>, lo: nat, hi: nat): bool {
    if |chunks| == 0 then false
    else if lo < |chunks[0]| then lo <= hi < |chunks[0]|
    else hi >= |chunks[0]| && Together(chunks[1..], lo - |chunks[0]|, hi - |chunks[0]|)
  }

  /** A stream with the chunks that were fed, of which views remember those that they begin in. */
  function Remembering(chunks: seq<seq<Entry>>): Near {
    (steps: nat, lo: nat, hi: nat) => Together(chunks, lo, hi)
  }

  /** A parser that limits its view to one byte and then takes two. */
  function Overreaching(): Parser<nat, ()> {
    Parser(0, s => if s == 0 then SetView(View(0, Some(1))) else if s == 1 then Extract(2) else Finish(()),
           (s, reply) => s + 1)
  }

  /** It waits for nothing, and no byte of its view is missing, but it succeeds or fails depending on the chunks. */
  lemma ChunksMatterToOverreaching(x: byte, y: byte, z: byte)
    ensures var whole, bytewise := [[Some(x), Some(y), Some(z)]], [[Some(x)], [Some(y)], [Some(z)]];
            && Flatten(whole) == Flatten(bytewise)
            && Feed(Overreaching(), 3, Fresh(), whole, Remembering(whole)) == Returned(Some(((), 2)))
            && Feed(Overreaching(), 3, Fresh(), bytewise, Remembering(bytewise)) == Threw(WouldBlock)
  {
    var p, data := Overreaching(), [Some(x), Some(y), Some(z)];
    var whole, bytewise := [data], [[Some(x)], [Some(y)], [Some(z)]];
    OverreachingFails([Some(x)], Remembering(bytewise));
    OverreachingTakes(data, Remembering(whole));
    var (t, _) := Process(Stream, Some(Unit(p, true)), 3, Fresh<nat, ()>(), data, false, Remembering(whole));
    FeedDone(p, 3, t, whole[1..], Remembering(whole));
    var (t', _) := Process(Stream, Some(Unit(p, true)), 3, Fresh<nat, ()>(), [Some(x)], false, Remembering(bytewise));
    FeedDone(p, 3, t', bytewise[1..], Remembering(bytewise));
    assert Flatten([[Some(z)]]) == [Some(z)];
    assert bytewise[1..] == [[Some(y)], [Some(z)]] && bytewise[1..][1..] == [[Some(z)]];
  }

  lemma OverreachingTakes(data: seq<Entry>, near: Near)
    requires |data| == 3 && !HasGap(data) && near(2, 0, 2)
    ensures Run(Overreaching(), Begin(Overreaching(), 3), data, false, near) == Finished((), 2)
  {
    var p, c := Overreaching(), Begin(Overreaching(), 3);
    var limited := Config(1, View(0, Some(1)), 2);
    assert After(p, c, Step(p, c, data, false, near)) == limited;
    assert After(p, limited, Step(p, limited, data, false, near)) == Config(2, View(2, Some(1)), 1);
    assert Run(p, Config(2, View(2, Some(1)), 1), data, false, near) == Finished((), 2);
  }

  lemma OverreachingFails(data: seq<Entry>, near: Near)
    requires |data| == 1
    ensures Run(Overreaching(), Begin(Overreaching(), 3), data, false, near) == Failed(WouldBlock)
  {
    var p, c := Overreaching(), Begin(Overreaching(), 3);
    assert After(p, c, Step(p, c, data, false, near)) == Config(1, View(0, Some(1)), 2);
  }

  // ---------------------------------------------------------------- the parsing state as an object

  class ParsingState<S, R> {
    const kind: Kind
    const steps: nat
    const near: Near
    var unit: Option<Unit<S, R>>
    var skip: bool
    var done: bool
    var input: Option<(seq<Entry>, bool)>
    var running: Option<Parser<S, R>>
    var resumable: Option<Outcome<S, R>>

    ghost function View(): Session<S, R>
      reads this
    {
      Session(skip, done, input, running, resumable)
    }

    ghost predicate Valid()
      reads this
    {
      kind == Stream ==> Live(View())
    }

    constructor (kind: Kind, unit: Option<Unit<S, R>>, steps: nat, near: Near)
      ensures Valid() && View() == Fresh()
      ensures this.kind == kind && this.unit == unit && this.steps == steps && this.near == near
    {
      this.kind, this.unit, this.steps, this.near := kind, unit, steps, near;
      skip, done, input, running, resumable := false, false, None, None, None;
    }

    /** Sets a parser, at any time. */
    method SetParser(unit: Option<Unit<S, R>>)
      requires Valid()
      modifies this`unit
      ensures this.unit == unit && View() == old(View()) && Valid()
    {
      this.unit := unit;
    }

    /** `parse1`: starts the parser on a stream with `data`; none if it needs arguments. */
    method Parse(data: seq<Entry>, frozen: bool) returns (out: Option<Outcome<S, R>>)
      requires unit.Some?
      ensures out == if !unit.value.external then None
                     else Some(Run(unit.value.parser, Begin(unit.value.parser, steps), data, frozen, near))
    {
      if !unit.value.external {
        return None;
      }
      out := Some(Run(unit.value.parser, Begin(unit.value.parser, steps), data, frozen, near));
    }

    /** The backend of feeding; `eod` comes without data. */
    method ProcessData(chunk: seq<Entry>, eod: bool) returns (r: Return)
      requires Valid() && (|chunk| == 0 || !eod)
      modifies this`done, this`input, this`running, this`resumable
      ensures (View(), r) == Process(kind, unit, steps, old(View()), chunk, eod, near)
      ensures r != Hangs && r != InternalError ==> Valid()
    {
      if unit.None? || skip {
        return Over;
      }
      match kind
      case Block =>
        r := ProcessBlock(chunk);
      case Stream =>
        if done {
          return Over;
        }
        var out;
        var first := input.None?;
        if first {
          assert [] + chunk == chunk;
          input := Some((chunk, eod));
          var started := Parse(chunk, eod);
          if started.None? {
            done := true;
            return Throws(InvalidUnitType);
          }
          running := Some(unit.value.parser);
          out := started.value;
        } else {
          input := Some((input.value.0 + chunk, eod));
          out := Run(running.value, resumable.value.at, input.value.0, eod, near);
        }
        match out {
          case Failed(e) =>
            if !first {
              resumable := Some(out);
            }
            done := true;
            return Throws(e);
          case Diverged => return Hangs;
          case Finished(_, _) =>
            resumable := Some(out);
            done := true;
            return Over;
          case Suspended(_) =>
            resumable := Some(out);
            return if eod then InternalError else Continue;
        }
    }

    /** The part of `ProcessData` for blocks. */
    method ProcessBlock(chunk: seq<Entry>) returns (r: Return)
      requires kind == Block && unit.Some? && !skip
      modifies this`done, this`resumable
      ensures forall eod :: (View(), r) == Process(kind, unit, steps, old(View()), chunk, eod, near)
    {
      var out := Parse(chunk, true);
      if out.None? {
        done := true;
        return Throws(InvalidUnitType);
      }
      match out.value {
        case Failed(e) =>
          done := true;
          return Throws(e);
        case Diverged => return Hangs;
        case Suspended(_) =>
          resumable := out;
          return InternalError;
        case Finished(_, _) =>
          resumable := out;
          return Over;
      }
    }

    /** Signals the end of the input and returns the final offset, if parsing produced a result. */
    method FinishInput() returns (r: Return, offset: Option<nat>)
      requires Valid()
      modifies this`done, this`input, this`running, this`resumable
      ensures kind == Stream ==> (View(), r) == Process(kind, unit, steps, old(View()), [], true, near)
      ensures kind == Block ==> View() == old(View()) && r == Over
      ensures r == Over || r == Continue ==> offset == OffsetOf(ResultOf(View()))
    {
      r, offset := Over, None;
      if kind == Stream {
        r := ProcessData([], true);
      }
      if resumable.Some? && resumable.value.Finished? {
        offset := Some(resumable.value.offset);
      }
    }

    /** Over, regularly or not, or to be skipped. */
    predicate IsFinished()
      reads this
    {
      done || skip
    }

    method SkipRemaining()
      modifies this`skip
      ensures View() == old(View()).(skip := true)
    {
      skip := true;
    }

    /** Back to the state before any input, with the same parser. */
    method Reset()
      modifies this
      ensures View() == Fresh() && Valid() && unit == old(unit)
    {
      input, running, resumable, done, skip := None, None, None, false, false;
    }
  }

  /** A block is parsed as if it were a stream that came in one piece: no internal error, and the report
      is that of the whole input. */
  lemma BlockIsWholeInput<S, R>(p: Parser<S, R>, steps: nat, block: seq<Entry>, near: Near, near': Near)
    requires Disciplined(p, Begin(p, steps), block, 0)
    ensures var (t, r) := Process(Block, Some(Unit(p, true)), steps, Fresh<S, R>(), block, false, near);
            && r != InternalError
            && Feed(p, steps, Fresh(), [block], near') ==
                 match r
                 case Throws(e) => Threw(e)
                 case Hangs => Hung
                 case _ => Returned(ResultOf(t))
  {
    assert [block][1..] == [] && block + [] == block;
    assert Flatten([block]) == block;
    CutsDoNotMatter(p, steps, [block], near', near);
    FrozenNeverSuspends(p, Begin(p, steps), block, near);
  }

  /** A host that feeds a parser all of an input, and then finishes. */
  method FeedAll<S, R>(p: Parser<S, R>, steps: nat, chunks: seq<seq<Entry>>, near: Near)
      returns (report: Report<R>, offset: Option<nat>)
    ensures report == Feed(p, steps, Fresh(), chunks, near)
    ensures offset == if report.Returned? then OffsetOf(report.result) else None
  {
    NeverCrashes(p, steps, Fresh<S, R>(), chunks, near);
    var state := new ParsingState(Stream, Some(Unit(p, true)), steps, near);
    var i := 0;
    assert chunks[0..] == chunks;
    while i < |chunks|
      invariant 0 <= i <= |chunks| && fresh(state) && state.Valid()
      invariant state.kind == Stream && state.unit == Some(Unit(p, true)) && state.steps == steps && state.near == near
      invariant Feed(p, steps, state.View(), chunks[i..], near) == Feed(p, steps, Fresh(), chunks, near)
    {
      assert chunks[i..][1..] == chunks[i + 1..];
      var r := state.ProcessData(chunks[i], false);
      match r {
        case Throws(e) => return Threw(e), None;
        case Hangs => return Hung, None;
        case InternalError => return Crashed, None;
        case _ =>
      }
      i := i + 1;
    }
    var r;
    r, offset := state.FinishInput();
    match r {
      case Throws(e) => return Threw(e), None;
      case Hangs => return Hung, None;
      case InternalError => return Crashed, None;
      case _ =>
    }
    var out := state.resumable;
    if out.Some? && out.value.Finished? {
      return Returned(Some((out.value.result, out.value.offset))), offset;
    }
    return Returned(None), offset;
  }

  /** What `finish` returns is where the unit ends, for every disciplined parser and all cuts. */
  lemma FinishGivesOffset<S, R>(p: Parser<S, R>, steps: nat, chunks: seq<seq<Entry>>, near: Near, near': Near)
    requires Disciplined(p, Begin(p, steps), Flatten(chunks), 0)
    ensures var report := Feed(p, steps, Fresh(), chunks, near);
            var out := Run(p, Begin(p, steps), Flatten(chunks), true, near');
            (if report.Returned? then OffsetOf(report.result) else None)
            == if out.Finished? then Some(out.offset) else None
  {
    CutsDoNotMatter(p, steps, chunks, near, near');
    FrozenNeverSuspends(p, Begin(p, steps), Flatten(chunks), near');
  }
}
