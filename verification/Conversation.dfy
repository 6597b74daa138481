/** A conversation with tool use: what its transcript looks like, over any number of exchanges.

    What the model answers, whether a request fails and what a tool returns are arbitrary.
  */
module Conversation {
  import opened Common
  import LogNames

  // Blocks of a response. Kinds other than the first two are dropped from the history.
  datatype Block = Text(text: string) | ToolUse(id: string, name: string) | Other

  datatype Part =
    | TextPart(text: string)
    | UsePart(id: string, name: string)
    | ResultPart(id: string, content: string, isError: bool)

  datatype Role = User | Assistant

  datatype Message = Message(role: Role, parts: seq<Part>)

  datatype Outcome = Answered(text: string) | RequestFailed | BudgetExhausted

  // ---------------------------------------------------------------- responses

  function Kept(content: seq<Block>): seq<Part> {
    if content == [] then [] else
      var last := content[|content| - 1];
      Kept(content[..|content| - 1]) + match last
        case Text(text) => [TextPart(text)]
        case ToolUse(id, name) => [UsePart(id, name)]
        case Other => []
  }

  function RequestedIds(content: seq<Block>): seq<string> {
    if content == [] then [] else
      var last := content[|content| - 1];
      RequestedIds(content[..|content| - 1]) + if last.ToolUse? then [last.id] else []
  }

  function UseIds(parts: seq<Part>): seq<string> {
    if parts == [] then [] else
      var last := parts[|parts| - 1];
      UseIds(parts[..|parts| - 1]) + if last.UsePart? then [last.id] else []
  }

  function ResultIds(parts: seq<Part>): seq<string> {
    if parts == [] then [] else
      var last := parts[|parts| - 1];
      ResultIds(parts[..|parts| - 1]) + if last.ResultPart? then [last.id] else []
  }

  lemma {:induction false} KeptUses(content: seq<Block>)
    ensures UseIds(Kept(content)) == RequestedIds(content) && ResultIds(Kept(content)) == []
    decreases |content|
  {
    if content != [] {
      var init, last := content[..|content| - 1], content[|content| - 1];
      KeptUses(init);
      if !last.Other? {
        assert Kept(content)[..|Kept(content)| - 1] == Kept(init);
      } else {
        assert Kept(content) == Kept(init);
      }
    }
  }

  // The blocks of a response that are not dropped, in order.
  function Regular(content: seq<Block>): seq<Block> {
    if content == [] then [] else
      (if content[0].Other? then [] else [content[0]]) + Regular(content[1..])
  }

  function BlockOf(part: Part): Block {
    match part
    case TextPart(text) => Text(text)
    case UsePart(id, name) => ToolUse(id, name)
    case ResultPart(_, _, _) => Other
  }

  function BlocksOf(parts: seq<Part>): seq<Block> {
    seq(|parts|, k requires 0 <= k < |parts| => BlockOf(parts[k]))
  }

  lemma {:induction false} RegularAppend(a: seq<Block>, b: seq<Block>)
    ensures Regular(a + b) == Regular(a) + Regular(b)
    decreases |a|
  {
    if a == [] {
      assert a + b == b;
    } else {
      assert (a + b)[0] == a[0] && (a + b)[1..] == a[1..] + b;
      RegularAppend(a[1..], b);
    }
  }

  // The history keeps text, identifiers and names, and the response can be read back from it.
  lemma {:induction false} KeptBack(content: seq<Block>)
    ensures BlocksOf(Kept(content)) == Regular(content)
    decreases |content|
  {
    if content != [] {
      var init, last := content[..|content| - 1], content[|content| - 1];
      KeptBack(init);
      RegularAppend(init, [last]);
      assert content == init + [last] && [last][1..] == [];
      assert Regular([last]) == if last.Other? then [] else [last];
    }
  }

  method AssistantMessage(content: seq<Block>) returns (m: Message)
    ensures m == Message(Assistant, Kept(content))
    ensures UseIds(m.parts) == RequestedIds(content) && ResultIds(m.parts) == []
  {
    var parts: seq<Part> := [];
    for i := 0 to |content|
      invariant parts == Kept(content[..i])
    {
      assert content[..i + 1][..i] == content[..i];
      match content[i] {
        case Text(text) => parts := parts + [TextPart(text)];
        case ToolUse(id, name) => parts := parts + [UsePart(id, name)];
        case Other =>
      }
    }
    assert content[..|content|] == content;
    KeptUses(content);
    m := Message(Assistant, parts);
  }

  // ---------------------------------------------------------------- tool results

  const MAX_RESULT := 20000

  function Notice(length: nat): string {
    "\n\n... (output truncated, showing 20000 of " + LogNames.Itoa(length) + " bytes)"
  }

  function Truncated(result: string, limit: nat): string {
    if |result| <= limit then result else result[..limit] + Notice(|result|)
  }

  // How the call of a tool ends.
  datatype ToolResult = ToolResult(failed: bool, output: string)

  // The part that answers a tool use. Long outputs are cut, errors are reported as such.
  predicate Answers(part: Part, id: string, t: ToolResult) {
    && part.ResultPart? && part.id == id && part.isError == t.failed
    && (t.failed ==> part.content == "error: " + t.output)
    && (!t.failed && |t.output| <= 20000 ==> part.content == t.output)
    && (!t.failed && |t.output| > 20000 ==> |part.content| > 20000 && part.content[..20000] == t.output[..20000])
  }

  // `at` says which block each result answers; `tool` how the tool of a block ends.
  ghost predicate AllAnswered(content: seq<Block>, tool: nat -> ToolResult, results: seq<Part>, at: seq<nat>) {
    && |at| == |results|
    && (forall i, j :: 0 <= i < j < |at| ==> at[i] < at[j])
    && (forall j :: 0 <= j < |at| ==>
          at[j] < |content| && content[at[j]].ToolUse? && Answers(results[j], content[at[j]].id, tool(at[j])))
  }

  method CallTool(id: string, t: ToolResult) returns (part: Part)
    ensures Answers(part, id, t)
  {
    var text := if t.failed then "error: " + t.output else Truncated(t.output, MAX_RESULT);
    part := ResultPart(id, text, t.failed);
  }

  predicate AllBelow(at: seq<nat>, i: nat) {
    forall j :: 0 <= j < |at| ==> at[j] < i
  }

  // One more result.
  lemma ResultAdded(results: seq<Part>, part: Part)
    requires part.ResultPart?
    ensures ResultIds(results + [part]) == ResultIds(results) + [part.id]
    ensures UseIds(results + [part]) == UseIds(results)
  {
    assert (results + [part])[..|results|] == results;
  }

  lemma AnswerAdded(
    content: seq<Block>, tool: nat -> ToolResult, results: seq<Part>, at: seq<nat>, i: nat, part: Part)
    requires AllAnswered(content, tool, results, at) && AllBelow(at, i)
    requires i < |content| && content[i].ToolUse? && Answers(part, content[i].id, tool(i))
    ensures AllAnswered(content, tool, results + [part], at + [i]) && AllBelow(at + [i], i + 1)
  {
  }

  lemma RequestedNext(content: seq<Block>, i: nat)
    requires i < |content|
    ensures RequestedIds(content[..i + 1]) ==
      RequestedIds(content[..i]) + if content[i].ToolUse? then [content[i].id] else []
  {
    assert content[..i + 1][..i] == content[..i];
  }

  method ProcessToolCalls(content: seq<Block>, tool: nat -> ToolResult) returns (results: seq<Part>, ghost at: seq<nat>)
    ensures ResultIds(results) == RequestedIds(content)
    ensures |results| == |RequestedIds(content)| && UseIds(results) == []
    ensures AllAnswered(content, tool, results, at)
  {
    results, at := [], [];
    for i := 0 to |content|
      invariant ResultIds(results) == RequestedIds(content[..i])
      invariant |results| == |RequestedIds(content[..i])| && UseIds(results) == []
      invariant AllAnswered(content, tool, results, at) && AllBelow(at, i)
    {
      RequestedNext(content, i);
      if content[i].ToolUse? {
        var part := CallTool(content[i].id, tool(i));
        ResultAdded(results, part);
        AnswerAdded(content, tool, results, at, i, part);
        results, at := results + [part], at + [i];
      }
    }
    assert content[..|content|] == content;
  }

  // ---------------------------------------------------------------- transcripts

  // Every tool use is answered in the next message, in order and with nothing else.
  predicate AnsweredAt(m: seq<Message>, k: nat)
    requires k < |m|
  {
    m[k].role == Assistant && UseIds(m[k].parts) != [] ==>
      && k + 1 < |m| && m[k + 1].role == User
      && ResultIds(m[k + 1].parts) == UseIds(m[k].parts)
      && |m[k + 1].parts| == |UseIds(m[k].parts)|
  }

  // Every result answers the message before it, and only the user's messages hold results.
  predicate AskedAt(m: seq<Message>, k: nat)
    requires k < |m|
  {
    ResultIds(m[k].parts) != [] ==>
      m[k].role == User && k > 0 && m[k - 1].role == Assistant && UseIds(m[k - 1].parts) == ResultIds(m[k].parts)
  }

  predicate WellFormed(m: seq<Message>) {
    && (forall k :: 0 <= k < |m| ==> AnsweredAt(m, k))
    && (forall k :: 0 <= k < |m| ==> AskedAt(m, k))
  }

  predicate Differ(m: seq<Message>, k: nat)
    requires k < |m|
  {
    k + 1 < |m| ==> m[k].role != m[k + 1].role
  }

  predicate Alternates(m: seq<Message>) {
    forall k :: 0 <= k < |m| ==> Differ(m, k)
  }

  predicate EndsWith(m: seq<Message>, role: Role) {
    m != [] && m[|m| - 1].role == role
  }

  // The roles alternate, from a user's message on.
  predicate Orderly(m: seq<Message>) {
    Alternates(m) && (m != [] ==> m[0].role == User)
  }

  function Results(m: seq<Message>): nat {
    if m == [] then 0 else Results(m[..|m| - 1]) + |ResultIds(m[|m| - 1].parts)|
  }

  lemma ResultsAppend(m: seq<Message>, x: Message)
    ensures Results(m + [x]) == Results(m) + |ResultIds(x.parts)|
  {
    assert (m + [x])[..|m|] == m;
  }

  lemma AppendPlain(m: seq<Message>, x: Message)
    requires WellFormed(m) && UseIds(x.parts) == [] && ResultIds(x.parts) == []
    ensures WellFormed(m + [x]) && Results(m + [x]) == Results(m)
  {
    ResultsAppend(m, x);
    forall k | 0 <= k < |m + [x]|
      ensures AnsweredAt(m + [x], k) && AskedAt(m + [x], k)
    {
      assert k < |m| ==> AnsweredAt(m, k) && AskedAt(m, k);
    }
  }

  lemma AppendTurn(m: seq<Message>, a: Message, u: Message)
    requires WellFormed(m) && a.role == Assistant && u.role == User
    requires ResultIds(a.parts) == [] && UseIds(u.parts) == []
    requires ResultIds(u.parts) == UseIds(a.parts) && |u.parts| == |UseIds(a.parts)|
    ensures WellFormed(m + [a, u]) && Results(m + [a, u]) == Results(m) + |UseIds(a.parts)|
  {
    var m' := m + [a, u];
    assert m' == (m + [a]) + [u];
    ResultsAppend(m, a);
    ResultsAppend(m + [a], u);
    forall k | 0 <= k < |m'|
      ensures AnsweredAt(m', k) && AskedAt(m', k)
    {
      assert k < |m| ==> AnsweredAt(m, k) && AskedAt(m, k);
    }
  }

  lemma AppendRole(m: seq<Message>, x: Message)
    ensures Alternates(m + [x]) <==> Alternates(m) && !EndsWith(m, x.role)
    ensures EndsWith(m + [x], x.role)
    ensures Orderly(m + [x]) <==> Orderly(m) && !EndsWith(m, x.role) && (m == [] ==> x.role == User)
  {
    var m' := m + [x];
    if Alternates(m') {
      forall k | 0 <= k < |m|
        ensures Differ(m, k)
      {
        assert Differ(m', k);
      }
      assert m != [] ==> Differ(m', |m| - 1);
    } else if Alternates(m) && !EndsWith(m, x.role) {
      forall k | 0 <= k < |m'|
        ensures Differ(m', k)
      {
        assert k < |m| ==> Differ(m, k);
      }
    }
  }

  // Whatever the API is sent is complete: it ends with something to answer, and leaves no tool use
  // unanswered.
  predicate GoodRequests(sent: seq<seq<Message>>) {
    forall k :: 0 <= k < |sent| ==> WellFormed(sent[k]) && EndsWith(sent[k], User)
  }

  lemma RequestAdded(sent: seq<seq<Message>>, m: seq<Message>)
    requires GoodRequests(sent) && WellFormed(m) && EndsWith(m, User)
    ensures GoodRequests(sent + [m])
  {
  }

  // The two ways in which a round extends a transcript that waits for an answer.
  lemma AppendLast(m: seq<Message>, a: Message)
    requires WellFormed(m) && EndsWith(m, User)
    requires a.role == Assistant && UseIds(a.parts) == [] && ResultIds(a.parts) == []
    ensures WellFormed(m + [a]) && Results(m + [a]) == Results(m)
    ensures EndsWith(m + [a], Assistant) && (Orderly(m + [a]) <==> Orderly(m))
  {
    AppendPlain(m, a);
    AppendRole(m, a);
  }

  lemma AppendExchange(m: seq<Message>, a: Message, u: Message)
    requires WellFormed(m) && EndsWith(m, User) && a.role == Assistant && u.role == User
    requires ResultIds(a.parts) == [] && UseIds(u.parts) == []
    requires ResultIds(u.parts) == UseIds(a.parts) && |u.parts| == |UseIds(a.parts)|
    ensures WellFormed(m + [a] + [u]) && Results(m + [a] + [u]) == Results(m) + |UseIds(a.parts)|
    ensures EndsWith(m + [a] + [u], User) && (Orderly(m + [a] + [u]) <==> Orderly(m))
  {
    AppendTurn(m, a, u);
    assert m + [a, u] == m + [a] + [u];
    AppendRole(m, a);
    AppendRole(m + [a], u);
  }

  predicate EarlierAnswered(outcomes: seq<Outcome>) {
    forall k :: 0 <= k < |outcomes| - 1 ==> outcomes[k].Answered?
  }

  function ExtractText(content: seq<Block>): string {
    if content == [] then "" else if content[0].Text? then content[0].text else ExtractText(content[1..])
  }

  // The text of the first text block, and no text if there is none.
  ghost predicate FirstText(content: seq<Block>, text: string) {
    || (exists i :: 0 <= i < |content| && content[i] == Text(text) && NoText(content[..i]))
    || (text == "" && NoText(content))
  }

  predicate NoText(content: seq<Block>) {
    forall i :: 0 <= i < |content| ==> !content[i].Text?
  }

  lemma {:induction false} ExtractsFirst(content: seq<Block>)
    ensures FirstText(content, ExtractText(content))
    decreases |content|
  {
    if content != [] {
      if content[0].Text? {
        assert content[0] == Text(ExtractText(content)) && NoText(content[..0]);
      } else {
        var text := ExtractText(content);
        ExtractsFirst(content[1..]);
        if i :| 0 <= i < |content| - 1 && content[1..][i] == Text(text) && NoText(content[1..][..i]) {
          assert content[i + 1] == Text(text);
          assert forall j :: 1 <= j < i + 1 ==> content[j] == content[1..][..i][j - 1];
          assert NoText(content[..i + 1]);
        } else {
          assert forall j :: 1 <= j < |content| ==> content[j] == content[1..][j - 1];
        }
      }
    }
  }

  // What the API answers to the requests of one call of Send, in order (`None` for an error), and how
  // the tools used in each answer end.
  datatype World = World(reply: nat -> Option<seq<Block>>, tools: nat -> nat -> ToolResult)

  predicate UsesTools(reply: Option<seq<Block>>) {
    reply.Some? && exists b :: b in reply.value && b.ToolUse?
  }

  lemma {:induction false} UsesToolsIff(content: seq<Block>)
    ensures UsesTools(Some(content)) <==> RequestedIds(content) != []
    decreases |content|
  {
    if content != [] {
      var init, last := content[..|content| - 1], content[|content| - 1];
      UsesToolsIff(init);
      assert content == init + [last];
      if b :| b in content && b.ToolUse? {
        assert b in init || b == last;
      }
    }
  }

  // How an exchange ends, given the last answer.
  ghost predicate EndsBy(outcome: Outcome, reply: Option<seq<Block>>) {
    match outcome
    case RequestFailed => reply.None?
    case Answered(text) => reply.Some? && !UsesTools(reply) && FirstText(reply.value, text)
    case BudgetExhausted => UsesTools(reply)
  }

  // ---------------------------------------------------------------- the object

  class Conversation {
    var messages: seq<Message>
    var maxIter: int
    var toolCallCount: nat
    // How the calls of Send ended since the history was last cleared, what the API was sent, and the
    // number of results that clearing the history has dropped.
    ghost var outcomes: seq<Outcome>
    ghost var sent: seq<seq<Message>>
    ghost var forgotten: nat

    ghost predicate Valid()
      reads this
    {
      && maxIter >= 1
      && Sound()
      && (Orderly(messages) <==> EarlierAnswered(outcomes))
      && (messages == [] <==> outcomes == [])
      && (outcomes != [] ==> EndsWith(messages, if outcomes[|outcomes| - 1].Answered? then Assistant else User))
    }

    // What holds whenever a request is made as well.
    ghost predicate Sound()
      reads this
    {
      && WellFormed(messages)
      && toolCallCount == Results(messages) + forgotten
      && GoodRequests(sent)
    }

    constructor (maxIter: int)
      ensures Valid() && messages == [] && outcomes == [] && sent == [] && forgotten == 0
      ensures this.maxIter == if maxIter <= 0 then 20 else maxIter
    {
      this.maxIter := if maxIter <= 0 then 20 else maxIter;
      messages, toolCallCount := [], 0;
      outcomes, sent, forgotten := [], [], 0;
    }

    // A response goes into the history and, if it uses tools, their results.
    method TakeResponse(content: seq<Block>, tool: nat -> ToolResult)
      returns (outcome: Option<Outcome>, ghost at: seq<nat>)
      requires Sound() && EndsWith(messages, User)
      modifies this`messages, this`toolCallCount
      ensures Sound() && old(messages) < messages
      ensures Orderly(messages) <==> Orderly(old(messages))
      ensures outcome == None <==> UsesTools(Some(content))
      ensures outcome.Some? ==> outcome.value.Answered? && FirstText(content, outcome.value.text)
      ensures messages[|old(messages)|].role == Assistant
      ensures BlocksOf(messages[|old(messages)|].parts) == Regular(content)
      ensures outcome.None? ==> |messages| == |old(messages)| + 2 && EndsWith(messages, User)
      ensures outcome.None? ==> AllAnswered(content, tool, messages[|old(messages)| + 1].parts, at)
      ensures outcome.Some? ==> |messages| == |old(messages)| + 1
      ensures outcome.Some? ==> EndsWith(messages, Assistant) && UseIds(messages[|messages| - 1].parts) == []
    {
      outcome, at := None, [];
      UsesToolsIff(content);
      KeptBack(content);
      var a := AssistantMessage(content);
      var toolCount := CountUses(content);
      if toolCount == 0 {
        AppendLast(messages, a);
        messages := messages + [a];
        ExtractsFirst(content);
        outcome := Some(Answered(ExtractText(content)));
      } else {
        var results;
        results, at := ProcessToolCalls(content, tool);
        var u := Message(User, results);
        AppendExchange(messages, a, u);
        messages := messages + [a];
        toolCallCount := toolCallCount + toolCount;
        messages := messages + [u];
      }
    }

    // One round: a request, and what comes back.
    method Round(reply: Option<seq<Block>>, tool: nat -> ToolResult)
      returns (outcome: Option<Outcome>, ghost at: seq<nat>)
      requires Sound() && EndsWith(messages, User)
      modifies this`messages, this`toolCallCount, this`sent
      ensures Sound() && sent == old(sent) + [old(messages)] && old(messages) <= messages
      ensures Orderly(messages) <==> Orderly(old(messages))
      ensures outcome == None <==> UsesTools(reply)
      ensures outcome.Some? ==> EndsBy(outcome.value, reply)
      ensures reply.None? ==> messages == old(messages)
      ensures reply.Some? ==> |messages| > |old(messages)| && messages[|old(messages)|].role == Assistant
      ensures reply.Some? ==> BlocksOf(messages[|old(messages)|].parts) == Regular(reply.value)
      ensures reply.Some? && !UsesTools(reply) ==> |messages| == |old(messages)| + 1
      ensures UsesTools(reply) ==> |messages| == |old(messages)| + 2
      ensures UsesTools(reply) ==> AllAnswered(reply.value, tool, messages[|old(messages)| + 1].parts, at)
      ensures outcome.None? || outcome == Some(RequestFailed) ==> EndsWith(messages, User)
      ensures outcome.Some? && outcome.value.Answered? ==>
        EndsWith(messages, Assistant) && UseIds(messages[|messages| - 1].parts) == []
    {
      RequestAdded(sent, messages);
      sent := sent + [messages];
      if reply.None? {
        outcome, at := Some(RequestFailed), [];
      } else {
        outcome, at := TakeResponse(reply.value, tool);
      }
    }

    // Rounds until one has no tool use, one fails, or the budget is used up.
    method Rounds(w: World) returns (outcome: Outcome)
      requires Sound() && EndsWith(messages, User) && maxIter >= 1
      modifies this`messages, this`toolCallCount, this`sent
      ensures Sound() && old(messages) <= messages && (Orderly(messages) <==> Orderly(old(messages)))
      ensures old(sent) <= sent && 1 <= |sent| - |old(sent)| <= maxIter
      ensures forall i: nat :: i < |sent| - |old(sent)| - 1 ==> UsesTools(w.reply(i))
      ensures EndsBy(outcome, w.reply(|sent| - |old(sent)| - 1))
      ensures outcome.BudgetExhausted? ==> |sent| - |old(sent)| == maxIter
      ensures EndsWith(messages, if outcome.Answered? then Assistant else User)
      ensures outcome.Answered? ==> UseIds(messages[|messages| - 1].parts) == []
    {
      var i := 0;
      var ended: Option<Outcome> := None;
      while i < maxIter && ended.None?
        invariant 0 <= i <= maxIter && Sound() && |sent| == |old(sent)| + i
        invariant old(messages) <= messages && old(sent) <= sent
        invariant Orderly(messages) <==> Orderly(old(messages))
        invariant forall j: nat :: j < i && (j < i - 1 || ended.None?) ==> UsesTools(w.reply(j))
        invariant ended.Some? ==> i >= 1 && EndsBy(ended.value, w.reply(i - 1)) && !ended.value.BudgetExhausted?
        invariant ended.None? || ended == Some(RequestFailed) ==> EndsWith(messages, User)
        invariant ended.Some? && ended.value.Answered? ==>
          EndsWith(messages, Assistant) && UseIds(messages[|messages| - 1].parts) == []
        decreases maxIter - i
      {
        ghost var at;
        ended, at := Round(w.reply(i), w.tools(i));
        i := i + 1;
      }
      outcome := if ended.Some? then ended.value else BudgetExhausted;
    }

    // The user's message goes to the end of the history.
    method Ask(userMessage: string)
      requires Sound()
      modifies this`messages
      ensures Sound() && messages == old(messages) + [Message(User, [TextPart(userMessage)])]
      ensures EndsWith(messages, User)
      ensures Orderly(messages) <==> Orderly(old(messages)) && !EndsWith(old(messages), User)
    {
      var prompt := Message(User, [TextPart(userMessage)]);
      AppendRole(messages, prompt);
      AppendPlain(messages, prompt);
      messages := messages + [prompt];
    }

    method Send(userMessage: string, w: World) returns (outcome: Outcome)
      requires Valid()
      modifies this
      ensures Valid() && outcomes == old(outcomes) + [outcome]
      ensures old(messages) + [Message(User, [TextPart(userMessage)])] <= messages
      ensures old(sent) <= sent && 1 <= |sent| - |old(sent)| <= maxIter
      ensures forall i: nat :: i < |sent| - |old(sent)| - 1 ==> UsesTools(w.reply(i))
      ensures EndsBy(outcome, w.reply(|sent| - |old(sent)| - 1))
      ensures outcome.BudgetExhausted? ==> |sent| - |old(sent)| == maxIter
      ensures outcome.Answered? ==> UseIds(messages[|messages| - 1].parts) == []
      ensures maxIter == old(maxIter) && forgotten == old(forgotten)
    {
      Ask(userMessage);
      outcome := Rounds(w);
      EarlierAnsweredMore(outcomes, outcome);
      outcomes := outcomes + [outcome];
    }

    // Restoring a saved conversation clears the history, but not the count of tool calls.
    method RestoreConversation(maxIterations: int, hasHistory: bool)
      requires Valid()
      modifies this
      ensures Valid()
      ensures maxIter == if maxIterations > 0 then maxIterations else old(maxIter)
      ensures messages == if hasHistory then [] else old(messages)
      ensures toolCallCount == old(toolCallCount)
      ensures forgotten == old(forgotten) + if hasHistory then Results(old(messages)) else 0
      ensures toolCallCount == Results(messages) <==>
        old(forgotten) == 0 && (hasHistory ==> Results(old(messages)) == 0)
    {
      if maxIterations > 0 {
        maxIter := maxIterations;
      }
      if hasHistory {
        forgotten := toolCallCount;
        messages, outcomes := [], [];
      }
    }
  }

  method CountUses(content: seq<Block>) returns (count: nat)
    ensures count == |RequestedIds(content)|
  {
    count := 0;
    for i := 0 to |content|
      invariant count == |RequestedIds(content[..i])|
    {
      assert content[..i + 1][..i] == content[..i];
      if content[i].ToolUse? {
        count := count + 1;
      }
    }
    assert content[..|content|] == content;
  }

  lemma EarlierAnsweredMore(outcomes: seq<Outcome>, outcome: Outcome)
    ensures EarlierAnswered(outcomes + [outcome]) <==>
      EarlierAnswered(outcomes) && (outcomes != [] ==> outcomes[|outcomes| - 1].Answered?)
  {
    if EarlierAnswered(outcomes + [outcome]) {
      forall k | 0 <= k < |outcomes|
        ensures outcomes[k].Answered?
      {
        assert (outcomes + [outcome])[k].Answered?;
      }
    }
  }
}
