/** The task list and the effect of each command on it (`src/operations.rs`). */
module Operations {
  import opened Wrappers
  import opened Text
  import opened Index

  datatype Operation = Add | List | Done | Remove | Reset | Sort | Exit | Help

  /** A task: its description and whether it is completed. Identity is positional. */
  datatype Todo = Todo(task: string, done: bool)

  /** What a command writes: a listed task (struck through when done), the usage
      text, an index token that failed to parse, an unrecognised command token. */
  datatype Message =
    | TaskLine(text: string, struck: bool)
    | Usage
    | InvalidIndex(token: string)
    | InvalidCommand(token: string)

  /** The list after a command, and what the command wrote. */
  datatype Effect = Effect(list: seq<Todo>, out: seq<Message>)

  // ---------------------------------------------------------------------------
  // Command parser

  /** The case-sensitive command tokens that select each operation. */
  function Spellings(op: Operation): set<string> {
    match op
    case Add => {"add"}
    case List => {"list"}
    case Done => {"done"}
    case Remove => {"rm"}
    case Reset => {"reset"}
    case Sort => {"sort"}
    case Exit => {"exit", "quit"}
    case Help => {"help", "--help", "-h"}
  }

  function ParseOp(s: string): (r: Option<Operation>)
    ensures r.Some? ==> s in Spellings(r.value)
    ensures r.None? ==> forall op: Operation :: s !in Spellings(op)
  {
    if s == "add" then Some(Add)
    else if s == "list" then Some(List)
    else if s == "done" then Some(Done)
    else if s == "rm" then Some(Remove)
    else if s == "reset" then Some(Reset)
    else if s == "sort" then Some(Sort)
    else if s == "exit" || s == "quit" then Some(Exit)
    else if s == "help" || s == "--help" || s == "-h" then Some(Help)
    else None
  }

  /** A token selects an operation exactly when it is one of that operation's
      spellings; every other token, the empty one and case variants included,
      is refused. */
  lemma ParseOpExact(s: string, op: Operation)
    ensures ParseOp(s) == Some(op) <==> s in Spellings(op)
    ensures ParseOp("") == None && ParseOp("Add") == None && ParseOp("EXIT") == None
  {
  }

  // ---------------------------------------------------------------------------
  // Add

  function AddTask(list: seq<Todo>, args: seq<string>): (r: seq<Todo>)
    requires |args| >= 1
    ensures |args| == 1 ==> r == list
    ensures |args| > 1 ==> |r| == |list| + 1 && r[..|list|] == list
    ensures |args| > 1 ==> r[|list|].task == Join(args[1..]) && !r[|list|].done
  {
    if |args| > 1 then list + [Todo(Join(args[1..]), false)] else list
  }

  /** When the arguments are tokens of a line, the new task's description is
      non-empty and splits back into exactly those argument tokens. */
  lemma AddedTaskSplits(list: seq<Todo>, args: seq<string>)
    requires |args| > 1
    requires forall k :: 0 <= k < |args| ==> IsWord(args[k])
    ensures SplitWhitespace(AddTask(list, args)[|list|].task) == args[1..]
    ensures |AddTask(list, args)[|list|].task| > 0
  {
    SplitJoin(args[1..]);
  }

  // ---------------------------------------------------------------------------
  // Done

  /** The in-range indices the tokens name, against a list of length `len`. */
  function Targets(toks: seq<string>, len: nat): set<nat> {
    set i: nat | i < len && exists t :: t in toks && ParseIndex(t) == Some(i)
  }

  function MarkOne(list: seq<Todo>, tok: string): (r: seq<Todo>)
    ensures |r| == |list|
    ensures forall i :: 0 <= i < |r| ==> r[i].task == list[i].task
    ensures forall i :: 0 <= i < |r| ==> (r[i].done <==> list[i].done || ParseIndex(tok) == Some(i))
  {
    match ParseIndex(tok)
    case Some(n) => if n < |list| then list[n := list[n].(done := true)] else list
    case None => list
  }

  lemma TargetsCons(toks: seq<string>, len: nat)
    requires toks != []
    ensures forall i :: i in Targets(toks, len) <==>
      (i < len && ParseIndex(toks[0]) == Some(i)) || i in Targets(toks[1..], len)
  {
    assert forall t :: t in toks <==> t == toks[0] || t in toks[1..] by {
      assert toks == [toks[0]] + toks[1..];
    }
  }

  /** Marks done, token by token, every task whose index a token names. */
  function DoneAll(list: seq<Todo>, toks: seq<string>): (r: seq<Todo>)
    ensures |r| == |list|
    ensures forall i :: 0 <= i < |r| ==> r[i].task == list[i].task
    ensures forall i :: 0 <= i < |r| ==> (r[i].done <==> list[i].done || i in Targets(toks, |list|))
    decreases |toks|
  {
    if toks == [] then list
    else
      TargetsCons(toks, |list|);
      DoneAll(MarkOne(list, toks[0]), toks[1..])
  }

  /** The order of the index tokens does not matter. */
  lemma DoneOrderIrrelevant(list: seq<Todo>, toks: seq<string>, toks': seq<string>)
    requires multiset(toks) == multiset(toks')
    ensures DoneAll(list, toks) == DoneAll(list, toks')
  {
    assert forall t :: t in toks <==> t in toks' by {
      forall t ensures t in toks <==> t in toks' {
        assert t in toks <==> t in multiset(toks);
        assert t in toks' <==> t in multiset(toks');
      }
    }
    assert Targets(toks, |list|) == Targets(toks', |list|);
  }

  /** Marking the same tokens a second time changes nothing. */
  lemma DoneIdempotent(list: seq<Todo>, toks: seq<string>)
    ensures DoneAll(DoneAll(list, toks), toks) == DoneAll(list, toks)
  {
  }

  // ---------------------------------------------------------------------------
  // Remove

  /** Whether `tok` names an index of `list` as it is now. */
  predicate Hits(list: seq<Todo>, tok: string) {
    ParseIndex(tok).Some? && ParseIndex(tok).value < |list|
  }

  function RemoveOne(list: seq<Todo>, tok: string): (r: seq<Todo>)
    ensures !Hits(list, tok) ==> r == list
    ensures Hits(list, tok) ==> |r| == |list| - 1
    ensures Hits(list, tok) ==> forall i :: 0 <= i < |r| ==>
      r[i] == if i < ParseIndex(tok).value then list[i] else list[i + 1]
  {
    match ParseIndex(tok)
    case Some(n) => if n < |list| then list[..n] + list[n + 1..] else list
    case None => list
  }

  /** Removes, token by token, the task each token names in the list as the
      earlier removals have left it. */
  function RemoveAll(list: seq<Todo>, toks: seq<string>): (r: seq<Todo>)
    ensures |r| <= |list|
    ensures multiset(r) <= multiset(list)
    decreases |toks|
  {
    if toks == [] then list
    else
      RemoveOneShrinks(list, toks[0]);
      RemoveAll(RemoveOne(list, toks[0]), toks[1..])
  }

  /** How many tokens were in range at the moment they were applied. */
  function Removed(list: seq<Todo>, toks: seq<string>): nat
    decreases |toks|
  {
    if toks == [] then 0
    else (if Hits(list, toks[0]) then 1 else 0) + Removed(RemoveOne(list, toks[0]), toks[1..])
  }

  /** `a` is `b` with some elements left out, the rest kept in order. */
  predicate IsSubseq<T(==)>(a: seq<T>, b: seq<T>)
    decreases |b|
  {
    if a == [] then true
    else if b == [] then false
    else (a[0] == b[0] && IsSubseq(a[1..], b[1..])) || IsSubseq(a, b[1..])
  }

  lemma {:induction false} SubseqRefl<T>(a: seq<T>)
    ensures IsSubseq(a, a)
    decreases |a|
  {
    if a != [] {
      SubseqRefl(a[1..]);
    }
  }

  lemma {:induction false} SubseqTrans<T>(a: seq<T>, b: seq<T>, c: seq<T>)
    requires IsSubseq(a, b) && IsSubseq(b, c)
    ensures IsSubseq(a, c)
    decreases |c|
  {
    if a == [] {
    } else if IsSubseq(b, c[1..]) {
      SubseqTrans(a, b, c[1..]);
    } else if a[0] == b[0] && IsSubseq(a[1..], b[1..]) {
      SubseqTrans(a[1..], b[1..], c[1..]);
    } else {
      SubseqTrans(a, b[1..], c[1..]);
    }
  }

  /** Dropping one position leaves a subsequence. */
  lemma {:induction false} DropIsSubseq<T>(b: seq<T>, n: nat)
    requires n < |b|
    ensures IsSubseq(b[..n] + b[n + 1..], b)
    decreases n
  {
    var a := b[..n] + b[n + 1..];
    if n == 0 {
      assert a == b[1..];
      SubseqRefl(b[1..]);
    } else {
      assert a[0] == b[0];
      assert a[1..] == b[1..][..n - 1] + b[1..][n..];
      DropIsSubseq(b[1..], n - 1);
    }
  }

  /** One removal leaves the list with at most one task left out, order kept. */
  lemma RemoveOneShrinks(list: seq<Todo>, tok: string)
    ensures IsSubseq(RemoveOne(list, tok), list)
    ensures multiset(RemoveOne(list, tok)) <= multiset(list)
  {
    if Hits(list, tok) {
      var n := ParseIndex(tok).value;
      DropIsSubseq(list, n);
      assert list == list[..n] + [list[n]] + list[n + 1..];
    } else {
      SubseqRefl(list);
    }
  }

  /** The result of a removal command: its length falls by the number of tokens
      that hit, and what remains is the original list with tasks left out, in
      their original order. */
  lemma {:induction false} RemoveAllShrinks(list: seq<Todo>, toks: seq<string>)
    ensures |RemoveAll(list, toks)| == |list| - Removed(list, toks)
    ensures IsSubseq(RemoveAll(list, toks), list)
    ensures multiset(RemoveAll(list, toks)) <= multiset(list)
    decreases |toks|
  {
    if toks == [] {
      SubseqRefl(list);
    } else {
      var l1 := RemoveOne(list, toks[0]);
      RemoveAllShrinks(l1, toks[1..]);
      RemoveOneShrinks(list, toks[0]);
      SubseqTrans(RemoveAll(list, toks), l1, list);
    }
  }

  /** Tokens that parse to no index in range, here or after any earlier removal
      (the list only shrinks), leave the list as it was. */
  lemma {:induction false} RemoveOutOfRange(list: seq<Todo>, toks: seq<string>)
    requires forall t :: t in toks ==> ParseIndex(t).None? || ParseIndex(t).value >= |list|
    ensures RemoveAll(list, toks) == list
    ensures Removed(list, toks) == 0
    decreases |toks|
  {
    if toks != [] {
      assert toks[0] in toks;
      assert forall t :: t in toks[1..] ==> t in toks;
      RemoveOutOfRange(list, toks[1..]);
    }
  }

  /** Running a removal in two halves is running it all at once. */
  lemma {:induction false} RemoveAllConcat(list: seq<Todo>, a: seq<string>, b: seq<string>)
    ensures RemoveAll(list, a + b) == RemoveAll(RemoveAll(list, a), b)
    decreases |a|
  {
    if a == [] {
      assert a + b == b;
    } else {
      assert (a + b)[0] == a[0];
      assert (a + b)[1..] == a[1..] + b;
      RemoveAllConcat(RemoveOne(list, a[0]), a[1..], b);
    }
  }

  /** The index-shift hazard: `rm 0` on [A, B, C] leaves [B, C], and `rm 0 0`
      leaves [C], because the second 0 names the list the first one left. */
  lemma RemoveShiftExample(a: Todo, b: Todo, c: Todo)
    ensures RemoveAll([a, b, c], ["0"]) == [b, c]
    ensures RemoveAll([a, b, c], ["0", "0"]) == [c]
  {
    assert ParseIndex("0") == Some(0);
    assert RemoveOne([a, b, c], "0") == [b, c] by {
      assert [a, b, c][..0] + [a, b, c][1..] == [b, c];
    }
    assert RemoveOne([b, c], "0") == [c] by {
      assert [b, c][..0] + [b, c][1..] == [c];
    }
    assert ["0"][1..] == [];
    assert ["0", "0"][1..] == ["0"];
    assert RemoveAll([b, c], ["0"]) == RemoveAll([c], []);
  }

  // ---------------------------------------------------------------------------
  // Sort

  /** The tasks whose completion flag is `done`, in their original order. */
  function Select(list: seq<Todo>, done: bool): (r: seq<Todo>)
    ensures forall i :: 0 <= i < |r| ==> r[i].done == done
    ensures |r| <= |list|
  {
    if list == [] then []
    else (if list[0].done == done then [list[0]] else []) + Select(list[1..], done)
  }

  /** No completed task precedes a pending one. */
  predicate DoneLast(list: seq<Todo>) {
    forall i, j :: 0 <= i < j < |list| && list[i].done ==> list[j].done
  }

  lemma {:induction false} SelectConcat(a: seq<Todo>, b: seq<Todo>, done: bool)
    ensures Select(a + b, done) == Select(a, done) + Select(b, done)
    decreases |a|
  {
    if a == [] {
      assert a + b == b;
    } else {
      assert (a + b)[1..] == a[1..] + b;
      SelectConcat(a[1..], b, done);
    }
  }

  lemma {:induction false} SelectUniform(list: seq<Todo>, done: bool)
    requires forall i :: 0 <= i < |list| ==> list[i].done == done
    ensures Select(list, done) == list
    ensures Select(list, !done) == []
    decreases |list|
  {
    if list != [] {
      SelectUniform(list[1..], done);
    }
  }

  lemma {:induction false} SelectSplitsMultiset(list: seq<Todo>)
    ensures multiset(Select(list, false)) + multiset(Select(list, true)) == multiset(list)
    decreases |list|
  {
    if list != [] {
      SelectSplitsMultiset(list[1..]);
      assert list == [list[0]] + list[1..];
    }
  }

  /** A list with no completed task before a pending one is its pending tasks
      followed by its completed ones. */
  lemma {:induction false} DoneLastSplits(list: seq<Todo>)
    requires DoneLast(list)
    ensures list == Select(list, false) + Select(list, true)
    decreases |list|
  {
    if list == [] {
    } else if list[0].done {
      SelectUniform(list, true);
    } else {
      DoneLastSplits(list[1..]);
    }
  }

  /** Rust's stable `sort_by` on the completion flag (false before true). */
  function SortByDone(list: seq<Todo>): (r: seq<Todo>)
    ensures multiset(r) == multiset(list)
    ensures DoneLast(r)
    ensures Select(r, false) == Select(list, false)
    ensures Select(r, true) == Select(list, true)
  {
    var pending := Select(list, false);
    var finished := Select(list, true);
    SelectSplitsMultiset(list);
    SelectConcat(pending, finished, false);
    SelectConcat(pending, finished, true);
    SelectUniform(pending, false);
    SelectUniform(finished, true);
    pending + finished
  }

  /** The sorted list is the only arrangement with the pending tasks first that
      keeps the relative order inside each group. */
  lemma SortUnique(list: seq<Todo>, r: seq<Todo>)
    ensures r == SortByDone(list) <==>
      DoneLast(r) && Select(r, false) == Select(list, false) && Select(r, true) == Select(list, true)
  {
    if DoneLast(r) && Select(r, false) == Select(list, false) && Select(r, true) == Select(list, true) {
      DoneLastSplits(r);
    }
  }

  /** Sorting a sorted list changes nothing. */
  lemma SortIdempotent(list: seq<Todo>)
    ensures SortByDone(SortByDone(list)) == SortByDone(list)
  {
    SortUnique(SortByDone(list), SortByDone(list));
  }

  // ---------------------------------------------------------------------------
  // Dispatch

  /** One listed line per task, in order, struck through exactly when done. */
  function Listing(list: seq<Todo>): (lines: seq<Message>)
    ensures |lines| == |list|
    ensures forall i :: 0 <= i < |list| ==> lines[i] == TaskLine(list[i].task, list[i].done)
  {
    seq(|list|, i requires 0 <= i < |list| => TaskLine(list[i].task, list[i].done))
  }

  /** One parse error report per index token that does not parse, in order. */
  function BadIndices(toks: seq<string>): (out: seq<Message>)
    ensures forall m :: m in out ==> m.InvalidIndex? && m.token in toks && ParseIndex(m.token).None?
    ensures forall t :: t in toks && ParseIndex(t).None? ==> InvalidIndex(t) in out
    ensures |out| <= |toks|
  {
    if toks == [] then []
    else (if ParseIndex(toks[0]).None? then [InvalidIndex(toks[0])] else []) + BadIndices(toks[1..])
  }

  /** Reports come one per token, in token order: a single token yields one
      report exactly when it does not parse, and the reports of a concatenation
      are the reports of its halves, in order. */
  lemma {:induction false} BadIndicesPerToken(a: seq<string>, b: seq<string>, t: string)
    ensures BadIndices([t]) == if ParseIndex(t).None? then [InvalidIndex(t)] else []
    ensures BadIndices(a + b) == BadIndices(a) + BadIndices(b)
    decreases |a|
  {
    assert [t][1..] == [];
    if a == [] {
      assert a + b == b;
    } else {
      assert (a + b)[0] == a[0];
      assert (a + b)[1..] == a[1..] + b;
      BadIndicesPerToken(a[1..], b, t);
    }
  }

  /** `done x x` reports the bad token twice. */
  lemma BadIndicesRepeats()
    ensures BadIndices(["x", "x"]) == [InvalidIndex("x"), InvalidIndex("x")]
  {
    assert !IsDigit('x');
    assert ParseIndex("x") == None;
    BadIndicesPerToken(["x"], ["x"], "x");
    assert ["x"] + ["x"] == ["x", "x"];
  }

  /** `process_operation`: `args` is the whole token sequence of the line, the
      command token first, so the arguments proper are `args[1..]`. */
  function Apply(list: seq<Todo>, op: Operation, args: seq<string>): (e: Effect)
    requires |args| >= 1
    ensures e.list != list ==> op in {Add, Done, Remove, Reset, Sort}
    ensures op == Reset ==> e.list == []
    ensures op in {Done, Remove} ==> e.out == BadIndices(args[1..])
    ensures op == List ==> e.out == Listing(list)
    ensures op == Help ==> e.out == [Usage]
    ensures op in {Add, Reset, Sort, Exit} ==> e.out == []
  {
    match op
    case Add => Effect(AddTask(list, args), [])
    case List => Effect(list, Listing(list))
    case Done => Effect(DoneAll(list, args[1..]), BadIndices(args[1..]))
    case Remove => Effect(RemoveAll(list, args[1..]), BadIndices(args[1..]))
    case Reset => Effect([], [])
    case Sort => Effect(SortByDone(list), [])
    case Exit => Effect(list, [])
    case Help => Effect(list, [Usage])
  }

  /** `done x` reports the token and marks nothing; `done 99` on a short list
      is silent and marks nothing. */
  lemma DoneBadTokens(list: seq<Todo>)
    requires |list| <= 99
    ensures Apply(list, Done, ["done", "x"]) == Effect(list, [InvalidIndex("x")])
    ensures Apply(list, Done, ["done", "99"]) == Effect(list, [])
  {
    assert !IsDigit('x');
    assert ParseIndex("x") == None;
    assert ParseIndex("99") == Some(99) by {
      assert Unsigned("99") == "99";
      assert IsDigits("99");
      assert "99"[..1] == "9" && "9"[..0] == "";
      assert DigitsValue("9") == 9;
      assert DigitsValue("99") == 99;
    }
    assert Targets(["99"], |list|) == {};
    assert Targets(["x"], |list|) == {};
  }

  // ---------------------------------------------------------------------------
  // Initial state

  /** `populate_todo`: four sample tasks, alternately pending and completed. */
  function Populate(): (r: seq<Todo>)
    ensures |r| == 4
    ensures !r[0].done && r[1].done && !r[2].done && r[3].done
  {
    [ Todo("first task", false), Todo("second task", true),
      Todo("third task", false), Todo("fourth task", true) ]
  }

  lemma SelectCons(x: Todo, rest: seq<Todo>, done: bool)
    ensures Select([x] + rest, done) == (if x.done == done then [x] else []) + Select(rest, done)
  {
    assert ([x] + rest)[1..] == rest;
  }

  /** Sorting the initial list brings the two pending tasks to the front. */
  lemma SortPopulated()
    ensures var p := Populate(); SortByDone(p) == [p[0], p[2], p[1], p[3]]
  {
    var p := Populate();
    var a, b, c, d := p[0], p[1], p[2], p[3];
    assert p == [a] + ([b] + ([c] + ([d] + [])));
    SelectCons(d, [], false);
    SelectCons(d, [], true);
    SelectCons(c, [d], false);
    SelectCons(c, [d], true);
    SelectCons(b, [c, d], false);
    SelectCons(b, [c, d], true);
    SelectCons(a, [b, c, d], false);
    SelectCons(a, [b, c, d], true);
    assert Select(p, false) == [a, c];
    assert Select(p, true) == [b, d];
  }
}
