/** Go and Rust do not stop at a numeric value out of range: they record it, build an element
    with zero in its place, and refuse the source once it is parsed. */
module Recorder {
  import opened Strings
  import opened Unicode
  import opened Ports
  import opened Numeric
  import opened Tokens
  import opened MetaGrammar
  import opened Choices
  import opened Engine
  import opened Halting

  function OrZero(c: Option<CodePoint>): CodePoint { if c.Some? then c.value else 0 }

  function ReadOrZero(port: Port, text: string, radix: Radix): CodePoint {
    OrZero(if port.GoPort? then ParseWhole(text, radix) else ParseCodePoint(text, radix))
  }

  function EndsOrZero(port: Port, ends: seq<string>, radix: Radix): Numeral
    requires |ends| >= 2
  {
    var lo, hi := ReadOrZero(port, ends[0], radix), ReadOrZero(port, ends[1], radix);
    if lo == hi then Single(lo) else Interval(lo, hi)
  }

  /** The element recorded with the value. */
  function Salvaged(port: Port, src: string): Leaf {
    if |src| < 2 then Prose("")
    else
      var radix := RadixOf(src[1]);
      var body := src[2..];
      if '-' in body then
        var i := Find('-', body);
        var ends := if port.GoPort? && i < |body| then [body[..i], body[i + 1..]] else Split('-', body);
        LeafFor(port, EndsOrZero(port, ends, radix))
      else
        var parts := Split('.', body);
        LeafFor(port, Chain(seq(|parts|, i requires 0 <= i < |parts| => ReadOrZero(port, parts[i], radix))))
  }

  lemma {:induction false} EachRead(port: Port, parts: seq<string>, radix: Radix)
    ensures var codes := if port.GoPort? then ParseAllWhole(parts, radix) else ParseCodePoints(parts, radix);
            codes.Some? ==>
              codes.value == seq(|parts|, i requires 0 <= i < |parts| => ReadOrZero(port, parts[i], radix))
    decreases |parts|
  {
    if parts != [] {
      EachRead(port, parts[1..], radix);
    }
  }

  /** What is salvaged of a value in range is the element it names, and of one number out of range
      the character zero. */
  lemma SalvagedIs(port: Port, src: string)
    requires |src| >= 2
    ensures NumeralFor(port, src).Some? ==> Salvaged(port, src) == LeafFor(port, NumeralFor(port, src).value)
    ensures NumeralFor(port, src).None? && '-' !in src[2..] && '.' !in src[2..] ==>
              Salvaged(port, src) == LeafFor(port, Chain([0]))
  {
    var radix, body := RadixOf(src[1]), src[2..];
    if '-' !in body {
      EachRead(port, Split('.', body), radix);
      if '.' !in body {
        SplitFirst('.', body, "");
        OneRead(port, body, radix);
      }
    }
  }

  lemma OneRead(port: Port, part: string, radix: Radix)
    ensures var codes := if port.GoPort? then ParseAllWhole([part], radix) else ParseCodePoints([part], radix);
            codes.None? ==> seq(1, i requires 0 <= i < 1 => ReadOrZero(port, [part][i], radix)) == [0]
  {
    assert [part][1..] == [];
  }

  /** The engine's state, and whether a value has been recorded. */
  datatype Recording = Recording(state: State, recorded: bool)

  /** Where the machine goes on when it has recorded. */
  function Onward(mode: Mode, s: State): State
    requires s.Running?
  {
    var before := Before(s.top, s.store);
    var t := Tok(s.rest, 0);
    match Pick(s.top.rule, s.top.phase, s.rest, s.top.bag.kind)
    case NoMatch => Failed(Unexpected)
    case Chosen(alt) =>
      var f := SetLeaf(before.0, Salvaged(mode.port, t.src), SpanTo(Some(t), None));
      Go(alt.goto, f, s.below, before.1, Read(alt, s.rest))
  }

  function StepRecording(mode: Mode, r: Recording): Recording
    requires r.state.Running?
  {
    var next := Step(mode, r.state);
    if next == Failed(BadNumber) then Recording(Onward(mode, r.state), true) else r.(state := next)
  }

  lemma OnwardDecreases(mode: Mode, s: State)
    requires s.Running? && Ready(s)
    ensures Ready(Onward(mode, s))
    ensures Onward(mode, s).Running? ==> Measure(Onward(mode, s)) < Measure(s)
  {
    AtEach(s.top.rule, s.top.phase, s.rest, s.top.bag.kind);
  }

  lemma RecordingDecreases(mode: Mode, r: Recording)
    requires r.state.Running? && Ready(r.state)
    ensures var s := StepRecording(mode, r).state;
            Ready(s) && (s.Running? ==> Measure(s) < Measure(r.state))
  {
    StepDecreases(mode, r.state);
    OnwardDecreases(mode, r.state);
  }

  /** The outcome of a run that records. */
  function FinalRecording(mode: Mode, r: Recording): (end: Recording)
    requires Ready(r.state)
    ensures !end.state.Running?
    decreases Measure(r.state), r.state.Running?
  {
    if r.state.Running? then
      RecordingDecreases(mode, r);
      FinalRecording(mode, StepRecording(mode, r))
    else r
  }

  lemma {:induction false} RecordedStays(mode: Mode, r: Recording)
    requires Ready(r.state) && r.recorded
    ensures FinalRecording(mode, r).recorded
    decreases Measure(r.state), r.state.Running?
  {
    if r.state.Running? {
      RecordingDecreases(mode, r);
      RecordedStays(mode, StepRecording(mode, r));
    }
  }

  /** What the source answers: a value recorded outranks whatever ended the run. */
  function Answer(r: Recording): State { if r.recorded then Failed(BadNumber) else r.state }

  /** Recording and refusing afterwards is refusing at once: the answer is the one of the run
      that stops at the first value out of range, the same tree or the same failure. */
  lemma {:induction false} RecordingAnswersAlike(mode: Mode, s: State)
    requires Ready(s)
    ensures Answer(FinalRecording(mode, Recording(s, false))) == Final(mode, s)
    decreases Measure(s), s.Running?
  {
    if s.Running? {
      var r := Recording(s, false);
      RecordingDecreases(mode, r);
      StepDecreases(mode, s);
      if Step(mode, s) == Failed(BadNumber) {
        RecordedStays(mode, StepRecording(mode, r));
      } else {
        RecordingAnswersAlike(mode, Step(mode, s));
      }
    }
  }
}
