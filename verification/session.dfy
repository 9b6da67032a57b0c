/** The query front end of rag/query.py: the interactive read loop, run as a
    state machine over a scripted sequence of inputs, and the choice between
    interactive and single-shot mode. The store's answers are not modelled
    here; the outcome of a session is the list of queries it sends. */
module Session {
  import opened Results
  import opened Text
  import opened Config

  /** One attempt to read a line: the line typed, or an interrupt
      (`KeyboardInterrupt` or `EOFError`). */
  datatype Input = Line(text: string) | Interrupt

  /** One `collection.query` call. */
  datatype Query = Query(question: string, topK: int)

  /** The loop is either waiting for the next input or has stopped; either
      way it carries the queries sent so far. */
  datatype SessionState = Asking(asked: seq<Query>) | Closed(asked: seq<Query>)

  /** An exit keyword, compared case-insensitively. */
  predicate IsExitCommand(q: string)
  {
    Lower(q) == "quit" || Lower(q) == "exit" || Lower(q) == "q"
  }

  /** `q` spells `word` when ASCII capitals are read as lower case. */
  predicate SpellsIgnoringCase(q: string, word: string)
  {
    |q| == |word| && forall i :: 0 <= i < |q| ==> LowerChar(q[i]) == word[i]
  }

  /** The exit test accepts exactly the three keywords in any mix of
      upper and lower case, and nothing else. */
  lemma ExitIgnoringCase(q: string)
    ensures IsExitCommand(q) <==>
      SpellsIgnoringCase(q, "quit") || SpellsIgnoringCase(q, "exit") || SpellsIgnoringCase(q, "q")
  {
    var l := Lower(q);
    LowerAt(q);
    if SpellsIgnoringCase(q, "quit") {
      assert l == "quit";
    } else if SpellsIgnoringCase(q, "exit") {
      assert l == "exit";
    } else if SpellsIgnoringCase(q, "q") {
      assert l == "q";
    }
  }

  /** One turn of the `while True` loop. */
  function Step(st: SessionState, input: Input): SessionState
  {
    match st
    case Closed(_) => st
    case Asking(asked) =>
      match input
      case Interrupt => Closed(asked)
      case Line(raw) =>
        var q := Strip(raw);
        if q == [] then st
        else if IsExitCommand(q) then Closed(asked)
        else Asking(asked + [Query(q, DefaultTopK)])
  }

  /** The loop driven by a script of inputs, from the front. */
  function Run(st: SessionState, inputs: seq<Input>): SessionState
    decreases |inputs|
  {
    if |inputs| == 0 then st else Run(Step(st, inputs[0]), inputs[1..])
  }

  /** The queries an interactive session sends. Running out of script is
      end of input, which stops the loop like an interrupt. */
  function InteractiveQueries(inputs: seq<Input>): seq<Query>
  {
    Run(Asking([]), inputs).asked
  }

  /** An input that ends the loop. */
  predicate IsStop(input: Input)
  {
    input.Interrupt? || IsExitCommand(Strip(input.text))
  }

  /** The index of the first input that ends the loop, or the script length. */
  function StopIndex(inputs: seq<Input>): (n: nat)
    ensures n <= |inputs|
    decreases |inputs|
  {
    if |inputs| == 0 || IsStop(inputs[0]) then 0 else 1 + StopIndex(inputs[1..])
  }

  /** `StopIndex` finds the first stop: no input before it stops the loop,
      and the input at it does. */
  lemma {:induction false} StopIndexFirst(inputs: seq<Input>)
    ensures forall i :: 0 <= i < StopIndex(inputs) ==> !IsStop(inputs[i])
    ensures StopIndex(inputs) < |inputs| ==> IsStop(inputs[StopIndex(inputs)])
    decreases |inputs|
  {
    if |inputs| > 0 && !IsStop(inputs[0]) {
      var rest := inputs[1..];
      StopIndexFirst(rest);
      forall i | 1 <= i < StopIndex(inputs)
        ensures !IsStop(inputs[i])
      {
        assert inputs[i] == rest[i - 1];
      }
    }
  }

  /** The stripped, non-empty lines of a script, in order. */
  function Questions(inputs: seq<Input>): seq<string>
    decreases |inputs|
  {
    if |inputs| == 0 then []
    else
      var rest := Questions(inputs[1..]);
      if inputs[0].Line? && Strip(inputs[0].text) != [] then [Strip(inputs[0].text)] + rest else rest
  }

  /** Each question asked with the default number of results. */
  function AsQueries(qs: seq<string>): seq<Query>
  {
    seq(|qs|, i requires 0 <= i < |qs| => Query(qs[i], DefaultTopK))
  }

  lemma {:induction false} ClosedStays(asked: seq<Query>, inputs: seq<Input>)
    ensures Run(Closed(asked), inputs) == Closed(asked)
    decreases |inputs|
  {
    if |inputs| > 0 {
      ClosedStays(asked, inputs[1..]);
    }
  }

  /** The question a single input contributes, if any. */
  function QuestionOf(input: Input): seq<string>
  {
    if input.Line? && Strip(input.text) != [] then [Strip(input.text)] else []
  }

  lemma QuestionsCons(x: Input, ys: seq<Input>)
    ensures Questions([x] + ys) == QuestionOf(x) + Questions(ys)
  {
    assert ([x] + ys)[1..] == ys;
  }

  lemma PrefixSplit(inputs: seq<Input>, n: nat)
    requires 1 <= n <= |inputs|
    ensures inputs[..n] == [inputs[0]] + inputs[1..][..n - 1]
  {
    assert inputs[1..][..n - 1] == inputs[1..n];
  }

  lemma AsQueriesAppend(a: seq<string>, b: seq<string>)
    ensures AsQueries(a + b) == AsQueries(a) + AsQueries(b)
  {
  }

  /** A stopping input closes the loop without a query. */
  lemma StepStop(acc: seq<Query>, x: Input)
    requires IsStop(x)
    ensures Step(Asking(acc), x) == Closed(acc)
  {
    if x.Line? {
      LowerAt(Strip(x.text));
    }
  }

  /** Any other input adds its question, if it has one. */
  lemma StepGo(acc: seq<Query>, x: Input)
    requires !IsStop(x)
    ensures Step(Asking(acc), x) == Asking(acc + AsQueries(QuestionOf(x)))
  {
    if x.Line? && Strip(x.text) == [] {
      assert acc + AsQueries([]) == acc;
    }
  }

  lemma {:induction false} RunMatchesReference(acc: seq<Query>, inputs: seq<Input>)
    ensures Run(Asking(acc), inputs).asked == acc + AsQueries(Questions(inputs[..StopIndex(inputs)]))
    decreases |inputs|
  {
    if |inputs| == 0 {
    } else if IsStop(inputs[0]) {
      StepStop(acc, inputs[0]);
      ClosedStays(acc, inputs[1..]);
      assert inputs[..StopIndex(inputs)] == [];
    } else {
      var acc' := acc + AsQueries(QuestionOf(inputs[0]));
      StepGo(acc, inputs[0]);
      RunMatchesReference(acc', inputs[1..]);
      var m := StopIndex(inputs[1..]);
      assert StopIndex(inputs) == 1 + m;
      PrefixSplit(inputs, 1 + m);
      ReferenceCons(acc, inputs[0], inputs[1..][..m]);
    }
  }

  /** The reference queries of a script: the first input's question, then
      those of the rest. */
  lemma ReferenceCons(acc: seq<Query>, x: Input, later: seq<Input>)
    ensures acc + AsQueries(Questions([x] + later))
         == (acc + AsQueries(QuestionOf(x))) + AsQueries(Questions(later))
  {
    var hq, lq := QuestionOf(x), Questions(later);
    QuestionsCons(x, later);
    AsQueriesAppend(hq, lq);
    var aq, bq := AsQueries(hq), AsQueries(lq);
    assert AsQueries(Questions([x] + later)) == aq + bq;
    assert (acc + aq) + bq == acc + (aq + bq);
  }

  /** The interactive loop queries exactly the stripped, non-empty inputs
      that come before the first interrupt or exit keyword, in order, each
      with the default number of results. */
  lemma SessionQueries(inputs: seq<Input>)
    ensures InteractiveQueries(inputs) == AsQueries(Questions(inputs[..StopIndex(inputs)]))
  {
    RunMatchesReference([], inputs);
  }

  /** Every question of a script is stripped, non-empty and not an exit
      keyword when it comes before the first stop. */
  lemma {:induction false} QuestionsWellFormed(inputs: seq<Input>)
    requires forall i :: 0 <= i < |inputs| ==> !IsStop(inputs[i])
    ensures forall q :: q in Questions(inputs) ==> q != [] && Strip(q) == q && !IsExitCommand(q)
    decreases |inputs|
  {
    if |inputs| > 0 {
      QuestionsWellFormed(inputs[1..]);
      StripIdempotent(inputs[0].text);
    }
  }

  /** Every query sent is stripped, non-empty, not an exit keyword, and asks
      for the default number of results. */
  lemma QueriesWellFormed(inputs: seq<Input>)
    ensures forall query :: query in InteractiveQueries(inputs) ==>
      && query.question != [] && Strip(query.question) == query.question
      && !IsExitCommand(query.question) && query.topK == DefaultTopK
  {
    SessionQueries(inputs);
    var n := StopIndex(inputs);
    StopIndexFirst(inputs);
    QuestionsWellFormed(inputs[..n]);
    var qs := Questions(inputs[..n]);
    forall query | query in InteractiveQueries(inputs)
      ensures query.question in qs && query.topK == DefaultTopK
    {
      var i :| 0 <= i < |qs| && AsQueries(qs)[i] == query;
    }
  }

  lemma {:induction false} RunConcat(st: SessionState, a: seq<Input>, b: seq<Input>)
    ensures Run(st, a + b) == Run(Run(st, a), b)
    decreases |a|
  {
    if |a| > 0 {
      assert (a + b)[1..] == a[1..] + b;
      RunConcat(Step(st, a[0]), a[1..], b);
    } else {
      assert a + b == b;
    }
  }

  /** Nothing typed after an interrupt or exit keyword is ever queried. */
  lemma NothingAfterStop(before: seq<Input>, stop: Input, after: seq<Input>)
    requires IsStop(stop)
    ensures InteractiveQueries(before + [stop] + after) == InteractiveQueries(before)
  {
    RunConcat(Asking([]), before, [stop] + after);
    assert before + [stop] + after == before + ([stop] + after);
    var st := Run(Asking([]), before);
    assert Step(st, stop) == Closed(st.asked);
    assert ([stop] + after)[1..] == after;
    ClosedStays(st.asked, after);
  }

  /** The command-line arguments: the optional positional question, the
      `--interactive` flag and `--top-k`. */
  datatype Args = Args(question: Option<string>, interactive: bool, topK: int)

  datatype Mode = Interactive | SingleShot(question: string, topK: int)

  /** `if args.interactive or not args.question`. */
  function ChooseMode(args: Args): Mode
  {
    if args.interactive || args.question.None? || args.question.value == "" then Interactive
    else SingleShot(args.question.value, args.topK)
  }

  /** How a query run ends: the collection is missing (exit status 1 before
      anything is asked), or the queries sent. */
  datatype CliOutcome = CollectionMissing | Completed(queries: seq<Query>)

  /** `main` of rag/query.py, with the store's presence as a parameter. */
  function RunQueryCli(args: Args, collectionExists: bool, inputs: seq<Input>): CliOutcome
  {
    if !collectionExists then CollectionMissing
    else
      match ChooseMode(args)
      case Interactive => Completed(InteractiveQueries(inputs))
      case SingleShot(q, k) => Completed([Query(q, k)])
  }

  /** Without a collection nothing is queried. With `--interactive`, or
      without a (non-empty) question, the run sends exactly the queries of
      the interactive loop over the script. Otherwise it sends exactly one
      query, with the question as given (not stripped) and the user's
      top-k. */
  lemma CliQueries(args: Args, collectionExists: bool, inputs: seq<Input>)
    ensures !collectionExists ==> RunQueryCli(args, collectionExists, inputs) == CollectionMissing
    ensures collectionExists && (args.interactive || args.question == None || args.question == Some("")) ==>
      RunQueryCli(args, collectionExists, inputs) == Completed(AsQueries(Questions(inputs[..StopIndex(inputs)])))
    ensures collectionExists && !args.interactive && args.question.Some? && args.question.value != "" ==>
      RunQueryCli(args, collectionExists, inputs) == Completed([Query(args.question.value, args.topK)])
  {
    SessionQueries(inputs);
  }

  /** Single-shot mode never reads the script, and interactive mode ignores
      the user's top-k: every query it sends uses the default. */
  lemma CliModes(args: Args, collectionExists: bool, inputs: seq<Input>)
    ensures ChooseMode(args).SingleShot? ==>
      RunQueryCli(args, collectionExists, inputs) == RunQueryCli(args, collectionExists, [])
    ensures collectionExists && ChooseMode(args) == Interactive ==>
      && RunQueryCli(args, collectionExists, inputs).Completed?
      && forall query :: query in RunQueryCli(args, collectionExists, inputs).queries ==> query.topK == DefaultTopK
  {
    QueriesWellFormed(inputs);
  }
}
