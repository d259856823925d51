/** The parser as the source runs it: rules are objects whose fields the hooks and actions
    assign, node arrays are shared, and a stack of rules grows and shrinks. Each method is
    proved against the engine's function of the same step. */
module Parser {
  import opened Strings
  import opened Ports
  import opened Numeric
  import opened Tokens
  import opened Ast
  import opened MetaGrammar
  import opened Choices
  import opened Engine
  import opened Halting

  /** The arrays that nodes refer to. */
  class Lists {
    var at: Store

    constructor ()
      ensures at == []
    {
      at := [];
    }

    method New() returns (list: Val)
      modifies this
      ensures list == Arr(|old(at)|) && at == old(at) + [[]]
    {
      list := Arr(|at|);
      at := at + [[]];
    }

    method Push(list: Val, x: Val)
      modifies this
      ensures at == Append(old(at), list, x)
    {
      if list.Arr? && list.id < |at| {
        at := at[list.id := at[list.id] + [x]];
      }
    }
  }

  class RuleObject {
    const rule: RuleName
    var phase: Phase
    var node: Val
    var child: Val
    var u: Bag

    constructor (rule: RuleName, node: Val)
      ensures View() == NewRule(rule, node)
    {
      this.rule := rule;
      this.phase := Open;
      this.node := node;
      this.child := Undef;
      this.u := EMPTY_BAG;
    }

    function View(): Frame
      reads this
    {
      Frame(rule, phase, node, child, u)
    }

    /** `bo` and `bc`. */
    method Hook(lists: Lists)
      modifies this, lists
      ensures (View(), lists.at) == Before(old(View()), old(lists.at))
    {
      if phase == Open {
        match rule {
          case ABNF => node := lists.New();
          case ALTS => node := lists.New();
          case SEQ => node := lists.New();
          case ELEM => u := u.(min := 1, max := Fin(1));
          case ATOM => node := Undef;
          case PROD =>
        }
      } else if child != Undef {
        match rule {
          case PROD => lists.Push(node, RuleV(u.name, child, u.incremental, SpanTo(u.nameTok, None)));
          case ALTS => lists.Push(node, child);
          case _ =>
        }
      }
    }

    method SetCounts(min: nat, max: Bound)
      modifies this
      ensures View() == Counts(old(View()), min, max)
    {
      u := u.(min := min, max := max);
    }

    method SetName(t: Token, name: string, incremental: bool)
      modifies this
      ensures View() == Name(old(View()), t, name, incremental)
    {
      u := u.(name := name, nameTok := Some(t), incremental := incremental);
    }

    method SetNode(node: Val)
      modifies this
      ensures View() == old(View()).(node := node)
    {
      this.node := node;
    }

    /** `open_group`. */
    method OpenBracket(mode: Mode, t: Token, kind: GroupKind, depth: nat) returns (refused: Option<Failure>)
      modifies this
      ensures forall store: Store :: Told(refused, View(), store, Bracket(mode, old(View()), t, kind, depth, store))
    {
      if mode.maxDepth.Some? && mode.maxDepth.value < depth {
        return Some(TooDeep);
      }
      u := u.(kind := kind, open := Some(t));
      return None;
    }

    /** The action of an alternate, on the tokens it matched. */
    method Perform(mode: Mode, action: Action, rest: seq<Token>, depth: nat, lists: Lists)
      returns (refused: Option<Failure>)
      modifies this, lists
      ensures Told(refused, View(), lists.at, Act(mode, action, old(View()), rest, depth, old(lists.at)))
    {
      var t0, t1, t2 := Tok(rest, 0), Tok(rest, 1), Tok(rest, 2);
      refused := None;
      match action {
        case Nothing =>
        case NameProd => SetName(t0, t0.val, false);
        case NameProse => SetName(t0, t0.src, false);
        case NameMore => SetName(t0, t0.val, true);
        case CountBetween => SetCounts(CountOf(t0), Fin(CountOf(t2)));
        case CountAtLeast => SetCounts(CountOf(t0), Unbounded);
        case CountAtMost => SetCounts(0, Fin(CountOf(t1)));
        case CountAny => SetCounts(0, Unbounded);
        case CountExact => SetCounts(CountOf(t0), Fin(CountOf(t0)));
        case CloseElem => lists.Push(node, WrapItem(mode, u.min, u.max, child));
        case TermExact => SetNode(LitV(Quoted(t1, true), SpanTo(Some(t0), Some(t1))));
        case TermFolded => SetNode(LitV(Quoted(t1, false), SpanTo(Some(t0), Some(t1))));
        case TermBare => SetNode(LitV(Quoted(t0, false), SpanTo(Some(t0), None)));
        case TermNumeric =>
          match DecodeFor(mode.port, t0.src) {
            case Some(leaf) => SetNode(LitV(leaf, SpanTo(Some(t0), None)));
            case None => refused := Some(BadNumber);
          }
        case TermProse => SetNode(LitV(Prose(ProseText(t0)), SpanTo(Some(t0), None)));
        case TermRef => SetNode(LitV(Reference(t0.val), SpanTo(Some(t0), None)));
        case OpenGroup => refused := OpenBracket(mode, t0, InParens, depth);
        case OpenOption => refused := OpenBracket(mode, t0, InBrackets, depth);
        case CloseGroup => SetNode(GroupV(child, SpanTo(u.open, Some(t0))));
        case CloseOption =>
          var bracket := SpanTo(u.open, Some(t0));
          SetNode(WrapV(Opt, GroupV(child, bracket), bracket));
      }
    }
  }

  /** What a method that may refuse answered, and left, is what the function says. */
  ghost predicate Told(refused: Option<Failure>, f: Frame, store: Store, effect: Effect) {
    match effect
    case Done(g, after) => refused.None? && f == g && store == after
    case Refused(why) => refused == Some(why)
  }

  /** The rules under the running one, as the engine's stack. */
  ghost function Under(rules: seq<RuleObject>): Stack
    reads rules
  {
    if rules == [] then Bottom
    else Over(rules[|rules| - 1].View(), Under(rules[..|rules| - 1]))
  }

  lemma UnderDepth(rules: seq<RuleObject>)
    ensures Depth(Under(rules)) == |rules|
  {
  }

  class AbnfParser {
    const mode: Mode
    const lists: Lists
    var stack: seq<RuleObject>
    var rest: seq<Token>
    /** Set when the run is over. */
    var over: Option<State>

    ghost predicate Valid()
      reads this, stack
    {
      && (forall i, j :: 0 <= i < j < |stack| ==> stack[i] != stack[j])
      && (over.None? ==> stack != [])
      && (over.Some? ==> !over.value.Running?)
    }

    ghost function View(): State
      reads this, stack, lists
      requires Valid()
    {
      if over.Some? then over.value
      else Running(stack[|stack| - 1].View(), Under(stack[..|stack| - 1]), lists.at, rest)
    }

    constructor (mode: Mode, tokens: seq<Token>)
      ensures Valid() && View() == Init(tokens) && this.mode == mode
      ensures fresh(lists) && fresh(stack)
    {
      this.mode := mode;
      this.lists := new Lists();
      var first := new RuleObject(ABNF, Undef);
      this.stack := [first];
      this.rest := tokens;
      this.over := None;
    }

    /** The running rule waits, and a child opens with its node. */
    method Push(name: RuleName)
      requires Valid() && over.None?
      modifies this, stack
      ensures Valid() && forall i :: 0 <= i < |stack| ==> stack[i] in old(stack) || fresh(stack[i])
      ensures var top := old(stack[|stack| - 1].View());
              View() == Running(NewRule(name, top.node), Over(top.(phase := Close), old(Under(stack[..|stack| - 1]))),
                                lists.at, old(rest))
    {
      var n := |stack| - 1;
      var top := stack[n];
      top.phase := Close;
      var pushed := new RuleObject(name, top.node);
      ghost var below := stack[..n];
      stack := stack + [pushed];
      assert stack[..n + 1] == below + [top];
    }

    /** The running rule pops, and its parent, if any, has its node as `child`. */
    method Pop()
      requires Valid() && over.None?
      modifies this, stack
      ensures Valid() && forall i :: 0 <= i < |stack| ==> stack[i] in old(stack)
      ensures View() == Resume(old(Under(stack[..|stack| - 1])), old(stack[|stack| - 1].node), lists.at, old(rest))
    {
      var n := |stack| - 1;
      var top := stack[n];
      if n == 0 {
        over := Some(Accepted(top.node, lists.at));
      } else {
        stack := stack[..n];
        stack[n - 1].child := top.node;
      }
    }

    /** Goes on from an alternate: the running rule stays, is replaced, pushes or pops. */
    method Advance(goto: Goto)
      requires Valid() && over.None?
      modifies this, stack
      ensures Valid() && forall i :: 0 <= i < |stack| ==> stack[i] in old(stack) || fresh(stack[i])
      ensures View() == Go(goto, old(stack[|stack| - 1].View()), old(Under(stack[..|stack| - 1])), lists.at, old(rest))
    {
      var n := |stack| - 1;
      var top := stack[n];
      match goto {
        case Push(name) => Push(name);
        case Replace(name) =>
          var other := new RuleObject(name, top.node);
          ghost var below := stack[..n];
          stack := stack[..n] + [other];
          assert stack[..n] == below;
        case Stay =>
          if top.phase == Open {
            top.phase := Close;
          } else {
            Pop();
          }
      }
    }

    /** Takes an alternate: its action, what it reads, and where it goes. */
    method Take(alt: Alternate)
      requires Valid() && over.None?
      modifies this, stack, lists
      ensures Valid() && forall i :: 0 <= i < |stack| ==> stack[i] in old(stack) || fresh(stack[i])
      ensures var below := old(Under(stack[..|stack| - 1]));
              View() ==
              match Act(mode, alt.action, old(stack[|stack| - 1].View()), old(rest), Depth(below), old(lists.at))
                        case Refused(why) => Failed(why)
                        case Done(f, store) => Go(alt.goto, f, below, store, Read(alt, old(rest)))
    {
      var n := |stack| - 1;
      UnderDepth(stack[..n]);
      ghost var below := Under(stack[..n]);
      ghost var effect := Act(mode, alt.action, stack[n].View(), rest, n, lists.at);
      var refused := stack[n].Perform(mode, alt.action, rest, n, lists);
      assert Told(refused, stack[n].View(), lists.at, effect) && Under(stack[..n]) == below;
      if refused.Some? {
        over := Some(Failed(refused.value));
      } else {
        rest := Read(alt, rest);
        Advance(alt.goto);
      }
    }

    /** One step: the hook, and then the first alternate that matches. */
    method Step()
      requires Valid() && over.None?
      modifies this, stack, lists
      ensures Valid() && forall i :: 0 <= i < |stack| ==> stack[i] in old(stack) || fresh(stack[i])
      ensures View() == Engine.Step(mode, old(View()))
    {
      var top := stack[|stack| - 1];
      var choice := Pick(top.rule, top.phase, rest, top.u.kind);
      ghost var below := Under(stack[..|stack| - 1]);
      ghost var before := Before(top.View(), lists.at);
      top.Hook(lists);
      assert View() == Running(before.0, below, before.1, rest);
      match choice {
        case NoMatch => over := Some(Failed(Unexpected));
        case Chosen(alt) => Take(alt);
      }
    }

    /** A step further towards the end the run has, by the engine's measure. */
    method Onward(ghost end: State -> State)
      requires Valid() && over.None? && Ready(View()) && Follows(mode, end)
      modifies this, stack, lists
      ensures Valid() && forall i :: 0 <= i < |stack| ==> stack[i] in old(stack) || fresh(stack[i])
      ensures Ready(View()) && end(View()) == old(end(View()))
      ensures over.None? ==> Measure(View()) < old(Measure(View()))
    {
      StepDecreases(mode, View());
      Step();
    }

    /** Steps until the run is over. */
    method Run(ghost end: State -> State)
      requires Valid() && Ready(View()) && Follows(mode, end)
      modifies this, stack, lists
      ensures over.Some? && over.value == old(end(View()))
    {
      while over.None?
        invariant Valid()
        invariant forall i :: 0 <= i < |stack| ==> stack[i] in old(stack) || fresh(stack[i])
        invariant Ready(View()) && end(View()) == old(end(View()))
        decreases over.None?, Measure(View())
      {
        Onward(end);
      }
    }
  }

  /** A whole parse ends, and where the engine's run ends. */
  method Parse(mode: Mode, tokens: seq<Token>) returns (end: State)
    ensures end == Final(mode, Init(tokens))
  {
    ghost var account := Account(mode, tokens);
    var parser := new AbnfParser(mode, tokens);
    parser.Run(account);
    end := parser.over.value;
  }
}
