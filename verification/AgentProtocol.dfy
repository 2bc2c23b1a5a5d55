/** Messages, replies and the provider of the agent loop (`agent_engine/agent_loop.py`). The provider
    is an arbitrary environment: it answers each numbered call as it likes. */
module AgentProtocol {
  import opened Ordering
  import ToolArgs

  datatype Block =
    | Text(text: string)
    | ToolCall(id: string, name: string, args: ToolArgs.Args)
    | ToolResult(callId: string, ok: bool, payload: string)

  datatype Role = User | Assistant

  datatype Message = Message(role: Role, content: seq<Block>)

  /** No model is reported as the empty name. */
  const NO_MODEL := Name("")

  datatype Response = Response(content: seq<Block>, modelUsed: Name, tokens: int)

  datatype GatewayError = TransportError | ChainExhausted | OtherError(message: string)

  /** What the client is asked; `tools` is false when the tool list is empty. */
  datatype Request = Request(messages: seq<Message>, tools: bool, skip: set<Name>)

  datatype Reply = Answered(response: Response) | Failed(error: GatewayError)

  type Provider = (nat, Request) -> Reply

  /** One entry of the usage ledger: `_provider_call` records every call, failed ones included. */
  datatype Call = Call(request: Request, reply: Reply)

  /** What a run returns; elapsed time and the proxy's own trace are left out. */
  datatype Output = Output(text: string, toolCallsMade: seq<string>, tokens: int, modelUsed: Name, turns: nat)

  /** `_extract_text` */
  function TextOf(content: seq<Block>): string {
    if content == [] then ""
    else
      var last := content[|content| - 1];
      TextOf(content[..|content| - 1]) + if last.Text? then last.text else ""
  }

  /** `_extract_tool_calls` */
  function ToolCallsOf(content: seq<Block>): (r: seq<Block>)
    ensures forall b | b in r :: b.ToolCall?
  {
    if content == [] then []
    else
      var last := content[|content| - 1];
      ToolCallsOf(content[..|content| - 1]) + if last.ToolCall? then [last] else []
  }

  function Say(text: string): Message { Message(User, [Text(text)]) }

  lemma {:induction false} TextConcatenates(a: seq<Block>, b: seq<Block>)
    ensures TextOf(a + b) == TextOf(a) + TextOf(b)
  {
    if b == [] {
      assert a + b == a;
    } else {
      var front := b[..|b| - 1];
      assert (a + b)[..|a + b| - 1] == a + front;
      TextConcatenates(a, front);
    }
  }

  lemma {:induction false} ToolCallsConcatenate(a: seq<Block>, b: seq<Block>)
    ensures ToolCallsOf(a + b) == ToolCallsOf(a) + ToolCallsOf(b)
  {
    if b == [] {
      assert a + b == a;
    } else {
      var front := b[..|b| - 1];
      assert (a + b)[..|a + b| - 1] == a + front;
      ToolCallsConcatenate(a, front);
    }
  }

  /** The text of a content is that of its text blocks, end to end, and its tool calls are its blocks of
      that kind, in order. */
  lemma {:induction false} ContentIsRead(a: seq<Block>, one: Block, b: seq<Block>)
    ensures TextOf(a + b) == TextOf(a) + TextOf(b) && ToolCallsOf(a + b) == ToolCallsOf(a) + ToolCallsOf(b)
    ensures TextOf([one]) == match one { case Text(text) => text case _ => "" }
    ensures ToolCallsOf([one]) == match one { case ToolCall(_, _, _) => [one] case _ => [] }
    ensures TextOf([]) == "" && ToolCallsOf([]) == []
  {
    TextConcatenates(a, b);
    ToolCallsConcatenate(a, b);
    assert [one][..0] == [];
  }
}
