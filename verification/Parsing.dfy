/** Parsers as coroutines: any deterministic machine built from waiting for, inspecting and consuming
    input. Main result: how the input is cut into pieces does not matter to what a parser does. */
module Parsing {
  import opened Basics
  import opened Waiting

  datatype Error = ParseError(msg: string) | WouldBlock | MissingData | ArithmeticError | InvalidUnitType

  /** What a parser asks of the runtime next. */
  datatype Op<+R> =
    | Finish(result: R)
    | Throw(error: Error)
    | WaitForInput(min: nat, msg: string)
    | WaitForInputOrEod(min: nat)
    | WaitForEod
    | AtEod
    | Extract(n: nat)               // takes n bytes off the view
    | Peek                          // a copy of all bytes in the view
    | SetView(view: View)           // moves or limits the view

  datatype Reply = Done | Flag(b: bool) | Data(bytes: seq<byte>)

  /** A parser: what it does next in a state, and its state after the reply. */
  datatype Parser<!S, +R> = Parser(start: S, next: S -> Op<R>, resume: (S, Reply) -> S)

  /** Where a parser is: its own state, its view, and how many more steps this run may take. */
  datatype Config<+S> = Config(state: S, view: View, steps: nat)

  /** How running a parser ends for now. `Diverged` means that the step budget of the run is used up. */
  datatype Outcome<+S, +R> =
    | Finished(result: R, offset: nat)
    | Failed(error: Error)
    | Suspended(at: Config<S>)
    | Diverged

  /** Result of one operation on a stream that has `data` so far. */
  datatype Effect = Goes(reply: Reply, view: View) | Raises(error: Error) | Yields

  predicate HasGap(data: seq<Entry>) {
    exists i :: 0 <= i < |data| && data[i].None?
  }

  function Values(data: seq<Entry>): (r: seq<byte>)
    ensures |r| == |data|
  {
    seq(|data|, i requires 0 <= i < |data| => if data[i].Some? then data[i].value else 0)
  }

  /** What the view covers. */
  function Entries(v: View, data: seq<Entry>): seq<Entry> {
    if v.begin > |data| then [] else data[v.begin..v.begin + Size(v, |data|)]
  }

  predicate EndsBeforeBegin(v: View) {
    v.end.Some? && v.end.value < v.begin
  }

  /** The view begins at a position of the stream where data is missing. */
  predicate BeginsInGap(v: View, data: seq<Entry>) {
    v.begin < |data| && data[v.begin].None?
  }

  function Answered(a: Answer, v: View): Effect {
    match a
    case Ready => Goes(Flag(true), v)
    case Eod => Goes(Flag(false), v)
    case Blocked => Yields
  }

  /** Taking `n` bytes. With the shortcut neither the view's end matters nor that no bytes may be asked for. */
  function Take(v: View, n: nat, data: seq<Entry>, shortcut: bool): Effect
    requires shortcut ==> v.begin + n < |data|
  {
    var taken := if v.begin + n <= |data| then data[v.begin..v.begin + n] else [];
    if !shortcut && n > Size(v, |data|) then Raises(WouldBlock)
    else if HasGap(taken) || (shortcut && data[v.begin].None?) then Raises(MissingData)
    else Goes(Data(Values(taken)), v.(begin := v.begin + n))
  }

  /** Exactly when chunks do not matter to taking bytes: if some are asked for, the view has them, or else the stream
      does not reach beyond them; if none are, the view does not begin in a gap. */
  lemma TakeFixedExactly(v: View, n: nat, data: seq<Entry>)
    ensures Take(v, n, data, false) == Take(v, n, data, v.begin + n < |data|) <==>
            if n == 0 then !BeginsInGap(v, data) else n <= Size(v, |data|) || v.begin + n >= |data|
  {
    if n > 0 && v.begin + n <= |data| && BeginsInGap(v, data) {
      assert data[v.begin..v.begin + n][0] == None;
    }
  }

  /** Copying the view's data. The first chunk is looked at even if the view ends before its begin. */
  function Copy(v: View, data: seq<Entry>): Effect {
    if HasGap(Entries(v, data)) || (EndsBeforeBegin(v) && BeginsInGap(v, data)) then Raises(MissingData)
    else Goes(Data(Values(Entries(v, data))), v)
  }

  /** What the runtime does for an operation other than finishing or throwing. `near` says whether the chunk that the
      view's begin remembers also holds the position behind the bytes to take, if the stream has that position. */
  function Perform<R>(op: Op<R>, v: View, data: seq<Entry>, frozen: bool, near: bool): Effect
    requires !op.Finish? && !op.Throw?
  {
    match op
    case WaitForInput(min, msg) =>
      (match Wait(v, min, |data|, frozen)
       case Ready => Goes(Done, v)
       case Eod => Raises(ParseError(msg))
       case Blocked => Yields)
    case WaitForInputOrEod(min) => Answered(Wait(v, min, |data|, frozen), v)
    case WaitForEod =>
      if EndsBeforeBegin(v) then Raises(ArithmeticError)
      else if Wait(v, EodSize(v), |data|, frozen) == Blocked then Yields
      else Goes(Done, v)
    case AtEod =>
      (match Wait(v, 1, |data|, frozen)
       case Ready => Goes(Flag(false), v)
       case Eod => Goes(Flag(true), v)
       case Blocked => Yields)
    case Extract(n) => Take(v, n, data, near && v.begin + n < |data|)
    case Peek => Copy(v, data)
    case SetView(view) => Goes(Done, view)
  }

  /** Which chunks the stream has, as far as it matters, and which of them views remember: whether, with so many steps
      to go, the chunk remembered at one position also holds another. */
  type Near = (nat, nat, nat) -> bool

  /** The next operation of a parser. */
  function Step<S, R>(p: Parser<S, R>, c: Config<S>, data: seq<Entry>, frozen: bool, near: Near): Effect
    requires Active(p, c)
  {
    var op := p.next(c.state);
    Perform(op, c.view, data, frozen, op.Extract? && near(c.steps, c.view.begin, c.view.begin + op.n))
  }

  /** The parser has steps left, and has not come to its end. */
  predicate Active<S, R>(p: Parser<S, R>, c: Config<S>) {
    c.steps > 0 && !p.next(c.state).Finish? && !p.next(c.state).Throw?
  }

  /** The configuration after an operation. */
  function After<S, R>(p: Parser<S, R>, c: Config<S>, e: Effect): Config<S>
    requires e.Goes? && c.steps > 0
  {
    Config(p.resume(c.state, e.reply), e.view, c.steps - 1)
  }

  /** Runs a parser until it finishes, throws, or has to wait for input that is not there yet. */
  function Run<S, R>(p: Parser<S, R>, c: Config<S>, data: seq<Entry>, frozen: bool, near: Near): Outcome<S, R>
    decreases c.steps
  {
    var op := p.next(c.state);
    if c.steps == 0 then Diverged
    else if op.Finish? then Finished(op.result, c.view.begin)
    else if op.Throw? then Failed(op.error)
    else
      var e := Step(p, c, data, frozen, near);
      match e
      case Yields => Suspended(c)
      case Raises(error) => Failed(error)
      case Goes(_, _) => Run(p, After(p, c, e), data, frozen, near)
  }

  /** How many bytes an operation waits for, if it waits. */
  function Wanted<R>(op: Op<R>, v: View): Option<nat> {
    match op
    case WaitForInput(min, _) => Some(min)
    case WaitForInputOrEod(min) => Some(min)
    case WaitForEod => if EndsBeforeBegin(v) then None else Some(EodSize(v))
    case AtEod => Some(1)
    case _ => None
  }

  /** Suspending and starting the operation over is the same as looping inside the wait function: it
      yields as long as the loop would, and then answers for the whole input. */
  lemma YieldsUntilAwaited<R>(op: Op<R>, v: View, s: Supply, near: bool)
    requires Consistent(s) && Wanted(op, v).Some?
    ensures var r := Awaited(v, Wanted(op, v).value, s);
            && (Perform(op, v, s.data, s.frozen, near) == Yields <==> r != s)
            && Perform(op, v, r.data, r.frozen, near) == Perform(op, v, Total(s), true, near)
  {
    var min := Wanted(op, v).value;
    AnswerIsFixed(v, min, s);
    AwaitMore(v, min, min, s);
  }

  /** The wait functions do what parsers are told: each answers for the whole input, and a failing wait raises the error
      with the message that it was given. */
  method Await<R>(op: Op<R>, v: View, input: Input, near: bool) returns (e: Effect)
    requires Consistent(input.State()) && (Wanted(op, v).Some? || op.WaitForEod?)
    modifies input
    ensures e == Perform(op, v, old(Total(input.State())), true, near) && Consistent(input.State())
  {
    ghost var all := Total(input.State());
    match op
    case WaitForInput(min, msg) =>
      var ok := input.WaitForInput(v, min);
      return if ok then Goes(Done, v) else Raises(ParseError(msg));
    case WaitForInputOrEod(min) =>
      var ok := input.WaitForInputOrEod(v, min);
      return Goes(Flag(ok), v);
    case WaitForEod =>
      var ok := input.WaitForEod(v);
      return if ok then Goes(Done, v) else Raises(ArithmeticError);
    case AtEod =>
      var eod := input.AtEod(v);
      return Goes(Flag(eod), v);
  }

  /** On a stream that is complete, the flags say whether the bytes are there, and whether none is; waiting for the end
      of data fails only for views that end before their begin; and a view that was set is the view from then on. */
  lemma RepliesExactly<R>(v: View, data: seq<Entry>, near: bool, min: nat, view: View)
    ensures Perform<R>(WaitForInputOrEod(min), v, data, true, near) == Goes(Flag(min <= Size(v, |data|)), v)
    ensures Perform<R>(AtEod, v, data, true, near) == Goes(Flag(Size(v, |data|) == 0), v)
    ensures Perform<R>(WaitForEod, v, data, true, near)
            == if v.end.Some? && v.end.value < v.begin then Raises(ArithmeticError) else Goes(Done, v)
    ensures Perform<R>(SetView(view), v, data, true, near) == Goes(Done, view)
  {
  }

  /** A failing wait ends a run with the parser's own message; a successful one lets it go on. */
  lemma WaitFails<S, R>(p: Parser<S, R>, c: Config<S>, data: seq<Entry>, near: Near, min: nat, msg: string)
    requires c.steps > 0 && p.next(c.state) == WaitForInput(min, msg)
    ensures var out := Run(p, c, data, true, near);
            if min > Size(c.view, |data|) then out == Failed(ParseError(msg))
            else out == Run(p, Config(p.resume(c.state, Done), c.view, c.steps - 1), data, true, near)
  {
  }

  /** A parser that throws fails with just that error, and one that finishes has just that result, at its position. */
  lemma EndsRun<S, R>(p: Parser<S, R>, c: Config<S>, data: seq<Entry>, frozen: bool, near: Near)
    requires c.steps > 0
    ensures p.next(c.state).Throw? ==> Run(p, c, data, frozen, near) == Failed(p.next(c.state).error)
    ensures p.next(c.state).Finish? ==> Run(p, c, data, frozen, near) == Finished(p.next(c.state).result, c.view.begin)
  {
  }

  // ---------------------------------------------------------------- disciplined parsers

  /** What an operation lets a parser take for granted: the stream extends at least this far, if it did
      so up to `known` before. `all` is the length of the whole input. */
  function Known<R>(op: Op<R>, v: View, all: nat, known: nat): (r: nat)
    requires known <= all
    ensures known <= r <= all
  {
    match op
    case WaitForInput(min, _) => KnownAfter(v, min, all, known)
    case WaitForInputOrEod(min) => KnownAfter(v, min, all, known)
    case WaitForEod => if EndsBeforeBegin(v) then known else KnownAfter(v, EodSize(v), all, known)
    case AtEod => KnownAfter(v, 1, all, known)
    case _ => known
  }

  /** After waiting for `min` bytes: they are there, or else the end of the view, or of the input, is. */
  function KnownAfter(v: View, min: nat, all: nat, known: nat): (r: nat)
    requires known <= all
    ensures known <= r <= all
  {
    if min == 0 then known
    else if min <= Size(v, all) then Max(known, v.begin + min)
    else if v.end.Some? && v.end.value <= all then Max(known, v.end.value)
    else all
  }

  /** The parser looks only at what it knows to be there. It takes no more bytes than it has waited for, unless the view
      has not got them and the shortcut cannot apply; and if it takes no bytes, then not from a gap. It copies all of a
      view, or at least what makes that fail. */
  ghost predicate Entitled<R>(op: Op<R>, v: View, input: seq<Entry>, known: nat)
    requires known <= |input|
  {
    var all := |input|;
    match op
    case Extract(n) =>
      if n <= Size(v, known) then n == 0 ==> !BeginsInGap(v, input)
      else n > Size(v, all) && v.begin + n >= all
    case Peek =>
      if EndsBeforeBegin(v) then v.begin < known || !BeginsInGap(v, input)
      else Size(v, known) == Size(v, all) || HasGap(Entries(v, input[..known]))
    case _ => true
  }

  /** A stream for which the shortcut never applies, and one for which it applies wherever it can. */
  const NEVER: Near := (steps, lo, hi) => false
  const ALWAYS: Near := (steps, lo, hi) => true

  /** Running on the whole input from configuration `c`, the parser waits for what it looks at. */
  ghost predicate Disciplined<S, R>(p: Parser<S, R>, c: Config<S>, input: seq<Entry>, known: nat)
    requires known <= |input|
    decreases c.steps
  {
    var op := p.next(c.state);
    Active(p, c) ==>
      && Entitled(op, c.view, input, known)
      && var e := Step(p, c, input, true, NEVER);
         e.Goes? ==> Disciplined(p, After(p, c, e), input, Known(op, c.view, |input|, known))
  }

  // ---------------------------------------------------------------- the input may come in pieces

  /** On a frozen stream no operation suspends the parser. */
  lemma {:induction false} FrozenNeverSuspends<S, R>(p: Parser<S, R>, c: Config<S>, data: seq<Entry>, near: Near)
    ensures !Run(p, c, data, true, near).Suspended?
    decreases c.steps
  {
    if Active(p, c) {
      var e := Step(p, c, data, true, near);
      if e.Goes? {
        FrozenNeverSuspends(p, After(p, c, e), data, near);
      }
    }
  }

  lemma WaitAgrees(v: View, min: nat, m: nat, all: nat, frozen: bool, known: nat)
    requires known <= m <= all && (frozen ==> m == all)
    ensures var a := Wait(v, min, m, frozen);
            a == Blocked || (a == Wait(v, min, all, true) && KnownAfter(v, min, all, known) <= m)
  {
  }

  lemma TakeAgrees(v: View, n: nat, input: seq<Entry>, m: nat, known: nat, near: bool, near': bool)
    requires known <= m <= |input| && Entitled<()>(Extract(n), v, input, known)
    ensures Take(v, n, input[..m], near && v.begin + n < m) == Take(v, n, input, near' && v.begin + n < |input|)
  {
    SizeGrows(v, known, m);
    SizeGrows(v, m, |input|);
    if n <= Size(v, known) && v.begin + n <= m {
      assert input[..m][v.begin..v.begin + n] == input[v.begin..v.begin + n];
      if n > 0 && BeginsInGap(v, input) {
        assert input[v.begin..v.begin + n][0] == None;
      }
    }
  }

  lemma GapStays(d: seq<Entry>, e: seq<Entry>)
    requires d <= e && HasGap(d)
    ensures HasGap(e)
  {
    var i :| 0 <= i < |d| && d[i].None?;
    assert e[i] == d[i];
  }

  lemma EntriesGrow(v: View, input: seq<Entry>, m: nat, m': nat)
    requires m <= m' <= |input|
    ensures Entries(v, input[..m]) <= Entries(v, input[..m'])
    ensures Size(v, m) == Size(v, m') ==> Entries(v, input[..m]) == Entries(v, input[..m'])
  {
    SizeGrows(v, m, m');
  }

  lemma CopyAgrees(v: View, input: seq<Entry>, m: nat, known: nat)
    requires known <= m <= |input| && Entitled<()>(Peek, v, input, known)
    ensures Copy(v, input[..m]) == Copy(v, input)
  {
    var all := |input|;
    assert input[..all] == input;
    EntriesGrow(v, input, known, m);
    EntriesGrow(v, input, m, all);
    SizeGrows(v, known, m);
    SizeGrows(v, m, all);
    if !EndsBeforeBegin(v) && HasGap(Entries(v, input[..known])) {
      GapStays(Entries(v, input[..known]), Entries(v, input[..m]));
      GapStays(Entries(v, input[..m]), Entries(v, input));
    }
  }

  /** An operation either yields, or does on a part of the input what it does on all of it, wherever chunks end. */
  lemma PerformAgrees<R>(op: Op<R>, v: View, input: seq<Entry>, m: nat, frozen: bool, known: nat, near: bool,
                         near': bool)
    requires known <= m <= |input| && (frozen ==> m == |input|)
    requires !op.Finish? && !op.Throw? && Entitled(op, v, input, known)
    ensures var e := Perform(op, v, input[..m], frozen, near);
            e == Yields || (e == Perform(op, v, input, true, near') && Known(op, v, |input|, known) <= m)
  {
    match op
    case WaitForInput(min, _) => WaitAgrees(v, min, m, |input|, frozen, known);
    case WaitForInputOrEod(min) => WaitAgrees(v, min, m, |input|, frozen, known);
    case WaitForEod =>
      if !EndsBeforeBegin(v) { WaitAgrees(v, EodSize(v), m, |input|, frozen, known); }
    case AtEod => WaitAgrees(v, 1, m, |input|, frozen, known);
    case Extract(n) => TakeAgrees(v, n, input, m, known, near, near');
    case Peek => CopyAgrees(v, input, m, known);
    case SetView(_) =>
  }

  lemma StepAgrees<S, R>(p: Parser<S, R>, c: Config<S>, input: seq<Entry>, m: nat, frozen: bool, known: nat, near: Near,
                         near': Near)
    requires known <= m <= |input| && (frozen ==> m == |input|)
    requires Active(p, c) && Entitled(p.next(c.state), c.view, input, known)
    ensures var e := Step(p, c, input[..m], frozen, near);
            e == Yields
            || (e == Step(p, c, input, true, near') && Known(p.next(c.state), c.view, |input|, known) <= m)
  {
    var op := p.next(c.state);
    var hi := if op.Extract? then c.view.begin + op.n else 0;
    PerformAgrees(op, c.view, input, m, frozen, known, op.Extract? && near(c.steps, c.view.begin, hi),
                  op.Extract? && near'(c.steps, c.view.begin, hi));
  }

  /** An operation gives the same reply on every sufficient part of the input, wherever chunks end, if and only if the
      parser is entitled to it. */
  lemma EntitledExactly<R>(op: Op<R>, v: View, input: seq<Entry>, known: nat)
    requires known <= |input| && !op.Finish? && !op.Throw?
    ensures Entitled(op, v, input, known) <==>
            (forall m: nat, near, near' :: known <= m <= |input| ==>
               var e := Perform(op, v, input[..m], false, near);
               e == Yields || e == Perform(op, v, input, true, near'))
  {
    if Entitled(op, v, input, known) {
      forall m: nat, near, near' | known <= m <= |input|
        ensures var e := Perform(op, v, input[..m], false, near);
                e == Yields || e == Perform(op, v, input, true, near')
      {
        PerformAgrees(op, v, input, m, false, known, near, near');
      }
    } else {
      UnentitledDiffers(op, v, input, known);
      var e := Perform(op, v, input[..known], false, false);
      assert e != Yields && e != Perform(op, v, input, true, op.Extract?);
    }
  }

  /** Running on a part of the input goes as on all of it, or stops at a point of that run, from which
      the parser is still disciplined with what it has then seen. The streams may have different chunks. */
  lemma {:induction false} RunOnPart<S, R>(p: Parser<S, R>, c: Config<S>, input: seq<Entry>, m: nat, frozen: bool,
                                           known: nat, near: Near, near': Near)
      returns (known': nat)
    requires known <= m <= |input| && (frozen ==> m == |input|)
    requires Disciplined(p, c, input, known)
    ensures known' <= m
    ensures var part := Run(p, c, input[..m], frozen, near);
            if part.Suspended? then
              && !frozen && part.at.steps <= c.steps
              && Run(p, part.at, input, true, near') == Run(p, c, input, true, near')
              && Disciplined(p, part.at, input, known')
            else part == Run(p, c, input, true, near')
    decreases c.steps
  {
    known' := known;
    if Active(p, c) {
      StepAgrees(p, c, input, m, frozen, known, near, near');
      StepAgrees(p, c, input, |input|, true, known, NEVER, near');
      assert input[..|input|] == input;
      var e := Step(p, c, input[..m], frozen, near);
      if e.Goes? {
        known' := RunOnPart(p, After(p, c, e), input, m, frozen, Known(p.next(c.state), c.view, |input|, known), near,
                            near');
      } else if e.Yields? && frozen {
        StepAgrees(p, c, input, m, frozen, known, near, near);
        FrozenNeverSuspends(p, c, input[..m], near);
      }
    }
  }

  // ---------------------------------------------------------------- discipline is exact

  /** A run on `data` from configuration `c` comes to `at`. */
  ghost predicate Reaches<S, R>(p: Parser<S, R>, c: Config<S>, data: seq<Entry>, frozen: bool, near: Near,
                                at: Config<S>)
    decreases c.steps
  {
    at == c ||
    (Active(p, c) && var e := Step(p, c, data, frozen, near);
     e.Goes? && Reaches(p, After(p, c, e), data, frozen, near, at))
  }

  /** The run on the first `m` positions, after which more may come unless these are all, and the run on all of the
      input both come to `at`, where the former does not wait but goes on differently. */
  ghost predicate Deviates<S, R>(p: Parser<S, R>, c: Config<S>, input: seq<Entry>, m: nat, at: Config<S>, near: Near,
                                 near': Near)
    requires m <= |input|
  {
    var frozen := m == |input|;
    && Reaches(p, c, input[..m], frozen, near, at) && Reaches(p, c, input, true, near', at)
    && Active(p, at)
    && Step(p, at, input[..m], frozen, near) != Yields
    && Step(p, at, input[..m], frozen, near) != Step(p, at, input, true, near')
  }

  /** On a part of the input that reaches as far as an operation lets know, the operation does not yield. */
  lemma KnownIsEnough<S, R>(p: Parser<S, R>, c: Config<S>, input: seq<Entry>, known: nat, m: nat)
    requires known <= |input| && Active(p, c) && Entitled(p.next(c.state), c.view, input, known)
    requires Known(p.next(c.state), c.view, |input|, known) <= m <= |input|
    ensures Step(p, c, input[..m], m == |input|, NEVER) == Step(p, c, input, true, ALWAYS)
    ensures Step(p, c, input, true, NEVER) == Step(p, c, input, true, ALWAYS)
  {
    StepAgrees(p, c, input, m, m == |input|, known, NEVER, ALWAYS);
    StepAgrees(p, c, input, |input|, true, known, NEVER, ALWAYS);
    assert input[..|input|] == input;
  }

  lemma {:induction false} UndisciplinedDeviates<S, R>(p: Parser<S, R>, c: Config<S>, input: seq<Entry>, known: nat)
      returns (m: nat, at: Config<S>)
    requires known <= |input| && !Disciplined(p, c, input, known)
    ensures known <= m <= |input| && Deviates(p, c, input, m, at, NEVER, ALWAYS)
    decreases c.steps
  {
    var op := p.next(c.state);
    if Entitled(op, c.view, input, known) {
      var e := Step(p, c, input, true, NEVER);
      m, at := UndisciplinedDeviates(p, After(p, c, e), input, Known(op, c.view, |input|, known));
      KnownIsEnough(p, c, input, known, m);
    } else {
      m, at := known, c;
      UnentitledDiffers(op, c.view, input, known);
    }
  }

  lemma UnentitledDiffers<R>(op: Op<R>, v: View, input: seq<Entry>, known: nat)
    requires known <= |input| && !op.Finish? && !op.Throw? && !Entitled(op, v, input, known)
    ensures forall frozen :: Perform(op, v, input[..known], frozen, false) != Yields
    ensures forall frozen ::
              Perform(op, v, input[..known], frozen, false) != Perform(op, v, input, true, op.Extract?)
  {
    if op.Extract? {
      TakeDiffers(v, op.n, input, known);
    } else {
      CopyDiffers(v, input, known);
    }
  }

  lemma TakeDiffers(v: View, n: nat, input: seq<Entry>, known: nat)
    requires known <= |input| && !Entitled<()>(Extract(n), v, input, known)
    ensures Take(v, n, input[..known], false) != Take(v, n, input, v.begin + n < |input|)
  {
    SizeGrows(v, known, |input|);
  }

  lemma CopyDiffers(v: View, input: seq<Entry>, known: nat)
    requires known <= |input| && !Entitled<()>(Peek, v, input, known)
    ensures Copy(v, input[..known]) != Copy(v, input)
  {
    SizeGrows(v, known, |input|);
    assert |Entries(v, input[..known])| == Size(v, known);
    assert |Entries(v, input)| == Size(v, |input|);
  }

  lemma {:induction false} DisciplinedAgrees<S, R>(p: Parser<S, R>, c: Config<S>, input: seq<Entry>, known: nat, m: nat,
                                                   at: Config<S>, near: Near, near': Near)
    requires known <= m <= |input| && Disciplined(p, c, input, known)
    ensures !Deviates(p, c, input, m, at, near, near')
    decreases c.steps
  {
    if Active(p, c) {
      StepAgrees(p, c, input, m, m == |input|, known, near, near');
      StepAgrees(p, c, input, |input|, true, known, NEVER, near');
      assert input[..|input|] == input;
      var e := Step(p, c, input, true, near');
      if at != c && e.Goes? && Step(p, c, input[..m], m == |input|, near) == e {
        DisciplinedAgrees(p, After(p, c, e), input, Known(p.next(c.state), c.view, |input|, known), m, at, near, near');
      }
    }
  }

  /** A parser is disciplined if and only if no run on a part of the input deviates from the run on all of it, whatever
      the chunks of the two streams. */
  lemma DisciplinedExactly<S(!new), R>(p: Parser<S, R>, c: Config<S>, input: seq<Entry>, known: nat)
    requires known <= |input|
    ensures Disciplined(p, c, input, known) <==>
            !exists m: nat, at: Config<S>, near, near' ::
              known <= m <= |input| && Deviates(p, c, input, m, at, near, near')
  {
    if Disciplined(p, c, input, known) {
      forall m: nat, at: Config<S>, near, near' | known <= m <= |input|
        ensures !Deviates(p, c, input, m, at, near, near')
      {
        DisciplinedAgrees(p, c, input, known, m, at, near, near');
      }
    } else {
      var m, at := UndisciplinedDeviates(p, c, input, known);
      assert Deviates(p, c, input, m, at, NEVER, ALWAYS);
    }
  }

  // ---------------------------------------------------------------- parsers that are disciplined on every input

  /** One step of a parser that keeps count, in its state, of how many bytes of its view it has waited for, and
      whether it has waited for all of them; and that takes bytes only as far as it has. */
  ghost predicate GuardedStep<S, R>(p: Parser<S, R>, waited: S -> nat, complete: S -> bool, s: S, reply: Reply) {
    var op, t := p.next(s), p.resume(s, reply);
    var same := complete(t) ==> complete(s);
    match op
    case Finish(_) => true
    case Throw(_) => true
    case WaitForInput(min, _) => waited(t) <= Max(waited(s), min) && same
    case WaitForInputOrEod(min) => waited(t) <= (if reply == Flag(true) then Max(waited(s), min) else waited(s)) && same
    case AtEod => waited(t) <= (if reply == Flag(false) then Max(waited(s), 1) else waited(s)) && same
    case WaitForEod => waited(t) <= waited(s)
    case Extract(n) => n <= waited(s) && waited(t) <= waited(s) - n && same
    case Peek => complete(s) && waited(t) <= waited(s)
    case SetView(_) => waited(t) == 0 && !complete(t)
  }

  ghost predicate Guarded<S(!new), R>(p: Parser<S, R>, waited: S -> nat, complete: S -> bool) {
    && waited(p.start) == 0 && !complete(p.start)
    && forall s: S, reply: Reply :: GuardedStep(p, waited, complete, s, reply)
  }

  /** What the count stands for. */
  ghost predicate Counts(v: View, all: nat, known: nat, waited: nat, complete: bool)
    requires known <= all
  {
    waited <= Size(v, known) && (complete ==> Size(v, known) == Size(v, all) && !EndsBeforeBegin(v))
  }

  lemma CountsAfterWait(v: View, min: nat, all: nat, known: nat, waited: nat, complete: bool)
    requires known <= all && Counts(v, all, known, waited, complete)
    ensures var known' := KnownAfter(v, min, all, known);
            && Counts(v, all, known', waited, complete)
            && (min <= Size(v, all) ==> Counts(v, all, known', Max(waited, min), complete))
            && (min > Size(v, all) || (min == EodSizeOf(v) && all < TWO_TO_THE_64 - 1) ==>
                  Size(v, known') == Size(v, all))
  {
    SizeGrows(v, known, KnownAfter(v, min, all, known));
    SizeGrows(v, KnownAfter(v, min, all, known), all);
  }

  function EodSizeOf(v: View): int {
    if EndsBeforeBegin(v) then -1 else EodSize(v)
  }

  /** What makes a guarded parser disciplined: a size that waiting for the end of data can express, and no gaps, or no
      operation that takes no bytes. */
  ghost predicate Suitable<S(!new), R>(p: Parser<S, R>, input: seq<Entry>) {
    |input| < TWO_TO_THE_64 - 1 && (HasGap(input) ==> forall s: S :: p.next(s) != Extract(0))
  }

  lemma GuardedEntitled<S(!new), R>(p: Parser<S, R>, waited: S -> nat, complete: S -> bool, s: S, v: View,
                                    input: seq<Entry>, known: nat)
    requires Guarded(p, waited, complete) && Suitable(p, input)
    requires known <= |input| && Counts(v, |input|, known, waited(s), complete(s))
    ensures Entitled(p.next(s), v, input, known)
  {
    assert GuardedStep(p, waited, complete, s, Done);
    if p.next(s) == Extract(0) && BeginsInGap(v, input) {
      assert HasGap(input);
    }
  }

  lemma GuardedGoes<S(!new), R>(p: Parser<S, R>, waited: S -> nat, complete: S -> bool, s: S, v: View,
                                input: seq<Entry>, known: nat)
    requires Guarded(p, waited, complete) && |input| < TWO_TO_THE_64 - 1
    requires known <= |input| && Counts(v, |input|, known, waited(s), complete(s))
    requires !p.next(s).Finish? && !p.next(s).Throw? && Perform(p.next(s), v, input, true, false).Goes?
    ensures var e, t := Perform(p.next(s), v, input, true, false), Known(p.next(s), v, |input|, known);
            Counts(e.view, |input|, t, waited(p.resume(s, e.reply)), complete(p.resume(s, e.reply)))
  {
    var op, all := p.next(s), |input|;
    SizeGrows(v, known, all);
    var e := Perform(op, v, input, true, false);
    assert GuardedStep(p, waited, complete, s, e.reply);
    hide Guarded, HasGap, Values, Entries;
    if Wanted(op, v).Some? {
      CountsAfterWait(v, Wanted(op, v).value, all, known, waited(s), complete(s));
      hide Size, Counts, KnownAfter;
    }
  }

  lemma {:induction false} GuardedFrom<S(!new), R>(p: Parser<S, R>, waited: S -> nat, complete: S -> bool, c: Config<S>,
                                                   input: seq<Entry>, known: nat)
    requires Guarded(p, waited, complete) && Suitable(p, input)
    requires known <= |input| && Counts(c.view, |input|, known, waited(c.state), complete(c.state))
    ensures Disciplined(p, c, input, known)
    decreases c.steps
  {
    if Active(p, c) {
      var op := p.next(c.state);
      GuardedEntitled(p, waited, complete, c.state, c.view, input, known);
      var e := Step(p, c, input, true, NEVER);
      if e.Goes? {
        GuardedGoes(p, waited, complete, c.state, c.view, input, known);
        GuardedFrom(p, waited, complete, After(p, c, e), input, Known(op, c.view, |input|, known));
      }
    }
  }

  /** A guarded parser is disciplined on every suitable input. */
  lemma GuardedIsDisciplined<S(!new), R>(p: Parser<S, R>, waited: S -> nat, complete: S -> bool, steps: nat,
                                         input: seq<Entry>)
    requires Guarded(p, waited, complete) && Suitable(p, input)
    ensures Disciplined(p, Config(p.start, View(0, None), steps), input, 0)
  {
    GuardedFrom(p, waited, complete, Config(p.start, View(0, None), steps), input, 0);
  }
}
