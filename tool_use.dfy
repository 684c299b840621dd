/** Tool dispatch for a model reply: each `tool_use` block is run by name and
    answered with a `tool_result` block carrying the JSON-encoded output, or
    the error message when the call raised. */
module ToolUse {
  import opened Values

  /** A call that returns a value or raises an exception with a message. */
  datatype Attempt<+T> = Done(value: T) | Raised(message: string)

  /** The blocks of a model reply. */
  datatype ContentBlock =
    | TextBlock(text: string)
    | ToolUseBlock(id: string, name: string, input: map<string, PyValue>)
    | OtherBlock

  /** A `{"type": "tool_result", ...}` block. */
  datatype ToolResult = ToolResult(toolUseId: string, content: string, isError: bool)

  /** The functions the dispatcher calls, which are not part of this model:
      the two tools, invoked with the input as keyword arguments, and
      `json.dumps`. */
  datatype Toolbox = Toolbox(
    currentDatetime: map<string, PyValue> -> Attempt<PyValue>,
    runBatch: map<string, PyValue> -> Attempt<PyValue>,
    dumps: PyValue -> Attempt<string>)

  /** `run_tool`: only the two known names are dispatched; any other name
      returns `None` without raising. */
  function RunTool(tools: Toolbox, name: string, input: map<string, PyValue>): (r: Attempt<PyValue>)
    ensures name == "get_current_datetime" ==> r == tools.currentDatetime(input)
    ensures name == "batch_tool" ==> r == tools.runBatch(input)
    ensures name != "get_current_datetime" && name != "batch_tool" ==> r == Done(PyNone)
  {
    if name == "get_current_datetime" then tools.currentDatetime(input)
    else if name == "batch_tool" then tools.runBatch(input)
    else Done(PyNone)
  }

  /** `[block for block in content if block.type == "tool_use"]`. */
  function ToolRequests(content: seq<ContentBlock>): (r: seq<ContentBlock>)
    ensures forall i :: 0 <= i < |r| ==> r[i].ToolUseBlock? && r[i] in content
    decreases |content|
  {
    if content == [] then []
    else (if content[0].ToolUseBlock? then [content[0]] else []) + ToolRequests(content[1..])
  }

  /** The result block for one request: the output encoded by `json.dumps`,
      or `"Error: " + message` when the tool or the encoding raised. */
  function ResultFor(tools: Toolbox, request: ContentBlock): (r: ToolResult)
    requires request.ToolUseBlock?
    ensures r.toolUseId == request.id
    ensures !r.isError <==> RunTool(tools, request.name, request.input).Done?
                            && tools.dumps(RunTool(tools, request.name, request.input).value).Done?
    ensures !r.isError ==> r.content == tools.dumps(RunTool(tools, request.name, request.input).value).value
  {
    match RunTool(tools, request.name, request.input)
    case Raised(m) => ToolResult(request.id, "Error: " + m, true)
    case Done(output) =>
      match tools.dumps(output)
      case Raised(m) => ToolResult(request.id, "Error: " + m, true)
      case Done(text) => ToolResult(request.id, text, false)
  }

  /** `run_tools`: one result per `tool_use` block, in order; a request that
      raises does not stop the ones after it. */
  method RunTools(tools: Toolbox, content: seq<ContentBlock>) returns (results: seq<ToolResult>)
    ensures |results| == |ToolRequests(content)|
    ensures forall i :: 0 <= i < |results| ==> results[i] == ResultFor(tools, ToolRequests(content)[i])
  {
    var requests := ToolRequests(content);
    results := [];
    for i := 0 to |requests|
      invariant |results| == i
      invariant forall k :: 0 <= k < i ==> results[k] == ResultFor(tools, requests[k])
    {
      results := results + [ResultFor(tools, requests[i])];
    }
  }

  function CountToolUse(content: seq<ContentBlock>): nat
    decreases |content|
  {
    if content == [] then 0 else (if content[0].ToolUseBlock? then 1 else 0) + CountToolUse(content[1..])
  }

  /** The requests are exactly the `tool_use` blocks: as many, and blocks of
      other kinds contribute nothing. */
  lemma {:induction false} RequestsCount(content: seq<ContentBlock>)
    ensures |ToolRequests(content)| == CountToolUse(content)
    decreases |content|
  {
    if content != [] {
      RequestsCount(content[1..]);
    }
  }

  lemma {:induction false} RequestsOfConcat(a: seq<ContentBlock>, b: seq<ContentBlock>)
    ensures ToolRequests(a + b) == ToolRequests(a) + ToolRequests(b)
    decreases |a|
  {
    if a == [] {
      assert a + b == b;
    } else {
      assert (a + b)[0] == a[0];
      assert (a + b)[1..] == a[1..] + b;
      RequestsOfConcat(a[1..], b);
    }
  }

  /** Inserting a text block (or any non-`tool_use` block) anywhere leaves
      the results unchanged. */
  lemma IgnoresOtherBlocks(a: seq<ContentBlock>, b: seq<ContentBlock>, block: ContentBlock)
    requires !block.ToolUseBlock?
    ensures ToolRequests(a + [block] + b) == ToolRequests(a + b)
  {
    RequestsOfConcat(a + [block], b);
    RequestsOfConcat(a, [block]);
    RequestsOfConcat(a, b);
    assert ToolRequests([block]) == [] + ToolRequests([]);
  }
}
