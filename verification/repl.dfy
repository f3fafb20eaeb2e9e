/** The read-eval loop of `src/main.rs` with the terminal stripped away: each
    input line is split into tokens, the first token is parsed as a command, and
    the command is dispatched with the whole token sequence. */
module Repl {
  import opened Wrappers
  import opened Text
  import opened Operations

  /** The list after one line, whether the loop keeps going, and what was written. */
  datatype StepResult = StepResult(list: seq<Todo>, running: bool, out: seq<Message>)

  /** A read that fails yields the empty line. */
  function LineOf(input: Option<string>): (line: string)
    ensures input.None? ==> line == ""
    ensures input.Some? ==> line == input.value
  {
    match input
    case Some(line) => line
    case None => ""
  }

  /** The dispatch of a line's tokens, the command token first. */
  function Dispatch(list: seq<Todo>, args: seq<string>): (r: StepResult)
    requires args != []
    ensures !r.running <==> args[0] in Spellings(Exit)
    ensures !r.running ==> r.list == list && r.out == []
    ensures (forall op: Operation :: args[0] !in Spellings(op)) ==>
      r == StepResult(list, true, [InvalidCommand(args[0])])
  {
    ParseOpExact(args[0], Exit);
    match ParseOp(args[0])
    case None => StepResult(list, true, [InvalidCommand(args[0])])
    case Some(op) =>
      if op == Exit then StepResult(list, false, [])
      else
        var e := Apply(list, op, args);
        StepResult(e.list, true, e.out)
  }

  /** One turn of the loop on the line read (`None` for a failed read). */
  function Step(list: seq<Todo>, input: Option<string>): (r: StepResult)
    ensures input.None? ==> r == StepResult(list, true, [])
    ensures !r.running ==> r.list == list && r.out == []
  {
    var args := SplitWhitespace(LineOf(input));
    if args == [] then StepResult(list, true, []) else Dispatch(list, args)
  }

  /** A blank or whitespace-only line is ignored and the loop goes on. */
  lemma StepIgnoresBlank(list: seq<Todo>, input: Option<string>)
    requires forall i :: 0 <= i < |LineOf(input)| ==> IsWhitespace(LineOf(input)[i])
    ensures Step(list, input) == StepResult(list, true, [])
  {
  }

  /** The loop stops exactly when the first token is `exit` or `quit`. */
  lemma StepStopsOnExit(list: seq<Todo>, input: Option<string>)
    ensures !Step(list, input).running <==>
      (var toks := SplitWhitespace(LineOf(input)); toks != [] && toks[0] in Spellings(Exit))
  {
  }

  /** An unrecognised command token is reported and changes nothing. */
  lemma StepRejectsUnknown(list: seq<Todo>, input: Option<string>)
    requires var toks := SplitWhitespace(LineOf(input));
      toks != [] && forall op: Operation :: toks[0] !in Spellings(op)
    ensures Step(list, input) ==
      StepResult(list, true, [InvalidCommand(SplitWhitespace(LineOf(input))[0])])
  {
  }

  /** A recognised command other than exit is applied with the full token
      sequence, the command token at position 0. */
  lemma StepDispatches(list: seq<Todo>, input: Option<string>, op: Operation)
    requires var toks := SplitWhitespace(LineOf(input)); toks != [] && toks[0] in Spellings(op)
    requires op != Exit
    ensures var toks := SplitWhitespace(LineOf(input));
      Step(list, input) == StepResult(Apply(list, op, toks).list, true, Apply(list, op, toks).out)
  {
    var toks := SplitWhitespace(LineOf(input));
    ParseOpExact(toks[0], op);
    assert Step(list, input) == Dispatch(list, toks);
  }

  /** `add X Y ...` appends one pending task whose description is the argument
      tokens joined by single spaces, and which splits back into them. */
  lemma StepAdd(list: seq<Todo>, input: Option<string>)
    requires var toks := SplitWhitespace(LineOf(input)); |toks| > 1 && toks[0] == "add"
    ensures var toks := SplitWhitespace(LineOf(input)); var r := Step(list, input);
      && r.running && r.out == []
      && r.list == list + [Todo(Join(toks[1..]), false)]
      && SplitWhitespace(r.list[|list|].task) == toks[1..]
  {
    var toks := SplitWhitespace(LineOf(input));
    StepDispatches(list, input, Add);
    AddedTaskSplits(list, toks);
  }

  /** The line "add buy carrots" appends the pending task "buy carrots". */
  lemma StepAddExample(list: seq<Todo>)
    ensures Step(list, Some("add buy carrots")).list == list + [Todo("buy carrots", false)]
  {
    var ws := ["add", "buy", "carrots"];
    assert IsWord("add") && IsWord("buy") && IsWord("carrots");
    assert Join(ws[1..]) == "buy carrots";
    assert Join(ws) == "add buy carrots";
    SplitJoin(ws);
    StepAdd(list, Some("add buy carrots"));
    assert ws[1..] == ["buy", "carrots"];
  }

  /** The end of a session: the final list, whether an exit command ended it,
      and everything written along the way. */
  datatype Session = Session(list: seq<Todo>, exited: bool, out: seq<Message>)

  /** The loop driven by `step` over the lines read, until a step stops it or
      the input ends. */
  function Loop(step: (seq<Todo>, Option<string>) -> StepResult, list: seq<Todo>, inputs: seq<Option<string>>): (s: Session)
    ensures inputs == [] ==> s == Session(list, false, [])
    ensures s.exited ==> inputs != []
    decreases |inputs|
  {
    if inputs == [] then Session(list, false, [])
    else
      var r := step(list, inputs[0]);
      if !r.running then Session(r.list, true, r.out)
      else
        var rest := Loop(step, r.list, inputs[1..]);
        Session(rest.list, rest.exited, r.out + rest.out)
  }

  /** The loop of `main` over the lines read. */
  function Run(list: seq<Todo>, inputs: seq<Option<string>>): (s: Session)
    ensures inputs == [] ==> s == Session(list, false, [])
    ensures s.exited ==> inputs != []
  {
    Loop(Step, list, inputs)
  }

  /** The program: the loop started on the sample tasks. */
  function Program(inputs: seq<Option<string>>): (s: Session)
    ensures inputs == [] ==> s.list == Populate() && !s.exited
  {
    Run(Populate(), inputs)
  }

  lemma {:induction false} LoopStopsAtExit(step: (seq<Todo>, Option<string>) -> StepResult,
                                           list: seq<Todo>, a: seq<Option<string>>, b: seq<Option<string>>)
    requires Loop(step, list, a).exited
    ensures Loop(step, list, a + b) == Loop(step, list, a)
    decreases |a|
  {
    assert a != [];
    assert (a + b)[0] == a[0];
    var r := step(list, a[0]);
    if r.running {
      assert (a + b)[1..] == a[1..] + b;
      LoopStopsAtExit(step, r.list, a[1..], b);
    }
  }

  lemma LoopFirstStop(step: (seq<Todo>, Option<string>) -> StepResult,
                      list: seq<Todo>, x: Option<string>, rest: seq<Option<string>>)
    requires !step(list, x).running
    ensures Loop(step, list, [x] + rest) == Session(step(list, x).list, true, step(list, x).out)
  {
    assert ([x] + rest)[0] == x;
  }

  /** Nothing read after an exit command has any effect. */
  lemma RunStopsAtExit(list: seq<Todo>, a: seq<Option<string>>, b: seq<Option<string>>)
    ensures Run(list, a).exited ==> Run(list, a + b) == Run(list, a)
  {
    if Run(list, a).exited {
      LoopStopsAtExit(Step, list, a, b);
    }
  }

  /** A failed read, inserted anywhere among the lines, changes nothing. */
  lemma {:induction false} RunSkipsBlank(list: seq<Todo>, a: seq<Option<string>>, b: seq<Option<string>>)
    ensures Run(list, a + [None] + b) == Run(list, a + b)
    decreases |a|
  {
    if a == [] {
      assert a + [None] + b == [None] + b;
      assert ([None] + b)[1..] == b;
      assert a + b == b;
    } else {
      assert (a + [None] + b)[0] == a[0] && (a + b)[0] == a[0];
      assert (a + [None] + b)[1..] == a[1..] + [None] + b;
      assert (a + b)[1..] == a[1..] + b;
      RunSkipsBlank(Step(list, a[0]).list, a[1..], b);
    }
  }

  /** A line holding just `exit` or `quit` ends the loop with the list as it was. */
  lemma RunExitLine(list: seq<Todo>, w: string, rest: seq<Option<string>>)
    requires w in Spellings(Exit)
    ensures Run(list, [Some(w)] + rest) == Session(list, true, [])
  {
    assert IsWord(w);
    assert Join([w]) == w;
    SplitJoin([w]);
    StepStopsOnExit(list, Some(w));
    LoopFirstStop(Step, list, Some(w), rest);
  }

  /** The program starts from the sample tasks, and `exit` or `quit` as the
      first line ends it at once with those tasks intact. */
  lemma ExitImmediately(w: string, rest: seq<Option<string>>)
    requires w in Spellings(Exit)
    ensures Program([Some(w)] + rest) == Session(Populate(), true, [])
  {
    RunExitLine(Populate(), w, rest);
  }
}
