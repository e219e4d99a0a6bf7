/**
  Chat messages in the OpenAI shape translated to the Anthropic shape. Image
  addresses and tool arguments are kept as their text: the source re-encodes
  each by itself, block by block.
 */
module AnthropicMessages {
  import opened Common

  datatype Part = TextPart(text: string) | ImagePart(url: string)

  datatype Content = Null | Plain(text: string) | Parts(parts: seq<Part>)

  datatype Call = Call(id: string, name: string, arguments: string)

  datatype Message =
    | System(content: Content)
    | User(content: Content)
    | Assistant(content: Content, calls: seq<Call>)
    | Tool(id: string, result: string)

  datatype Block =
    | Text(text: string)
    | Image(url: string)
    | ToolUse(id: string, name: string, arguments: string)
    | ToolResult(id: string, content: string)

  datatype Role = UserRole | AssistantRole

  datatype OutContent = Str(text: string) | Blocks(blocks: seq<Block>)

  datatype OutMessage = OutMessage(role: Role, content: OutContent)

  function PartBlock(p: Part): Block {
    match p
    case TextPart(t) => Text(t)
    case ImagePart(url) => Image(url)
  }

  function TextOrParts(c: Content): seq<Block> {
    match c
    case Null => []
    case Plain(t) => if t == "" then [] else [Text(t)]
    case Parts(ps) => seq(|ps|, i requires 0 <= i < |ps| => PartBlock(ps[i]))
  }

  function CallBlocks(calls: seq<Call>): seq<Block> {
    seq(|calls|, i requires 0 <= i < |calls| => ToolUse(calls[i].id, calls[i].name, calls[i].arguments))
  }

  /** No block becomes an empty text, a single text block its text, anything else stays a block list. */
  function Pack(role: Role, blocks: seq<Block>): OutMessage {
    OutMessage(role, if |blocks| == 0 then Str("")
                     else if |blocks| == 1 && blocks[0].Text? then Str(blocks[0].text)
                     else Blocks(blocks))
  }

  predicate IsTool(m: Message) {
    m.Tool?
  }

  /** The blocks of one non-system message. */
  function BlocksOf(m: Message): seq<Block> {
    match m
    case Assistant(c, calls) => TextOrParts(c) + CallBlocks(calls)
    case User(c) => TextOrParts(c)
    case Tool(id, result) => [ToolResult(id, result)]
    case System(_) => []
  }

  /** A message's blocks one by one: text or parts, then an assistant's calls with their ids, names and arguments. */
  lemma BlocksSpelled(m: Message)
    ensures m.System? ==> BlocksOf(m) == []
    ensures m.Tool? ==> BlocksOf(m) == [ToolResult(m.id, m.result)]
    ensures m.User? || m.Assistant? ==>
      var content := BlocksOf(m)[..|BlocksOf(m)| - (if m.Assistant? then |m.calls| else 0)];
      match m.content
      case Null => content == []
      case Plain(t) => content == if t == "" then [] else [Text(t)]
      case Parts(ps) => |content| == |ps| && forall i :: 0 <= i < |ps| ==>
        content[i] == if ps[i].TextPart? then Text(ps[i].text) else Image(ps[i].url)
    ensures m.Assistant? ==>
      var calls := BlocksOf(m)[|BlocksOf(m)| - |m.calls|..];
      forall i :: 0 <= i < |m.calls| ==> calls[i] == ToolUse(m.calls[i].id, m.calls[i].name, m.calls[i].arguments)
  {
    if m.Assistant? {
      assert BlocksOf(m)[..|TextOrParts(m.content)|] == TextOrParts(m.content);
      assert BlocksOf(m)[|TextOrParts(m.content)|..] == CallBlocks(m.calls);
    } else if m.User? {
      assert BlocksOf(m)[..|BlocksOf(m)|] == BlocksOf(m);
    }
  }

  function RoleOf(m: Message): Role {
    if m.Assistant? then AssistantRole else UserRole
  }

  function Flush(pending: seq<Block>): seq<OutMessage> {
    if pending == [] then [] else [OutMessage(UserRole, Blocks(pending))]
  }

  /** The non-system messages. */
  function Core(ms: seq<Message>): seq<Message>
    decreases |ms|
  {
    if ms == [] then []
    else if ms[|ms| - 1].System? then Core(ms[..|ms| - 1])
    else Core(ms[..|ms| - 1]) + [ms[|ms| - 1]]
  }

  function SystemTexts(ms: seq<Message>): seq<string>
    decreases |ms|
  {
    if ms == [] then []
    else
      var last := ms[|ms| - 1];
      SystemTexts(ms[..|ms| - 1]) + (if last.System? && last.content.Plain? then [last.content.text] else [])
  }

  /** Every message but the system ones, in order: built message by message. */
  lemma {:induction false} CoreInOrder(a: seq<Message>, b: seq<Message>)
    ensures Core(a + b) == Core(a) + Core(b)
    decreases |b|
  {
    if b == [] {
      assert a + b == a;
    } else {
      CoreInOrder(a, b[..|b| - 1]);
      assert (a + b)[..|a + b| - 1] == a + b[..|b| - 1];
    }
  }

  lemma {:induction false} SystemTextsInOrder(a: seq<Message>, b: seq<Message>)
    ensures SystemTexts(a + b) == SystemTexts(a) + SystemTexts(b)
    decreases |b|
  {
    if b == [] {
      assert a + b == a;
    } else {
      SystemTextsInOrder(a, b[..|b| - 1]);
      assert (a + b)[..|a + b| - 1] == a + b[..|b| - 1];
    }
  }

  lemma OneMessageSplit(m: Message)
    ensures Core([m]) == if m.System? then [] else [m]
    ensures SystemTexts([m]) == if m.System? && m.content.Plain? then [m.content.text] else []
  {
    assert [m][..0] == [];
  }

  /** Texts are joined in order by a blank line. */
  lemma {:induction false} JoinedByBlankLines(parts: seq<string>, last: string)
    ensures JoinTexts([last]) == last
    ensures parts != [] ==> JoinTexts(parts + [last]) == JoinTexts(parts) + "\n\n" + last
  {
    if |parts| == 1 {
      assert (parts + [last])[1..] == [last];
    } else if |parts| > 1 {
      JoinedByBlankLines(parts[1..], last);
      assert (parts + [last])[1..] == parts[1..] + [last];
      Glue(parts[0] + "\n\n", JoinTexts(parts[1..]), "\n\n" + last);
      Glue(parts[0] + "\n\n", JoinTexts(parts[1..]) + "\n\n", last);
      assert JoinTexts(parts[1..]) + ("\n\n" + last) == JoinTexts(parts[1..]) + "\n\n" + last;
    }
  }

  function JoinTexts(parts: seq<string>): string {
    if parts == [] then "" else if |parts| == 1 then parts[0] else parts[0] + "\n\n" + JoinTexts(parts[1..])
  }

  /** Length of the run of tool messages at the end. */
  function TrailingRun(ms: seq<Message>): (k: nat)
    ensures k <= |ms|
    decreases |ms|
  {
    if ms == [] || !IsTool(ms[|ms| - 1]) then 0 else 1 + TrailingRun(ms[..|ms| - 1])
  }

  function Results(ms: seq<Message>): (r: seq<Block>)
    ensures |r| == |ms|
    decreases |ms|
  {
    if ms == [] then []
    else
      var last := ms[|ms| - 1];
      Results(ms[..|ms| - 1]) + [if IsTool(last) then ToolResult(last.id, last.result) else Text("")]
  }

  /** The translation, said by runs: a maximal run of tool messages is one user message, any other message its own. */
  function Translate(core: seq<Message>): seq<OutMessage>
    decreases |core|
  {
    if core == [] then []
    else
      var k := TrailingRun(core);
      if k == 0 then
        Translate(core[..|core| - 1]) + [Pack(RoleOf(core[|core| - 1]), BlocksOf(core[|core| - 1]))]
      else
        Translate(core[..|core| - k]) + [OutMessage(UserRole, Blocks(Results(core[|core| - k..])))]
  }

  /** What the loop has emitted: everything before the trailing run. */
  function Emitted(core: seq<Message>): seq<OutMessage> {
    Translate(core[..|core| - TrailingRun(core)])
  }

  function PendingResults(core: seq<Message>): seq<Block> {
    Results(core[|core| - TrailingRun(core)..])
  }

  lemma EmittedIsTranslate(core: seq<Message>)
    ensures Emitted(core) + Flush(PendingResults(core)) == Translate(core)
  {
    if TrailingRun(core) == 0 {
      assert core[..|core|] == core;
    }
  }

  lemma AfterTool(core: seq<Message>, m: Message)
    requires IsTool(m)
    ensures Emitted(core + [m]) == Emitted(core)
    ensures PendingResults(core + [m]) == PendingResults(core) + [ToolResult(m.id, m.result)]
  {
    var all, k := core + [m], TrailingRun(core);
    assert all[..|all| - 1] == core;
    assert TrailingRun(all) == k + 1;
    assert all[..|all| - (k + 1)] == core[..|core| - k];
    var run, longer := core[|core| - k..], all[|all| - (k + 1)..];
    assert longer[..|longer| - 1] == run;
  }

  lemma AfterOther(core: seq<Message>, m: Message)
    requires !IsTool(m)
    ensures Emitted(core + [m]) == Translate(core) + [Pack(RoleOf(m), BlocksOf(m))]
    ensures PendingResults(core + [m]) == []
  {
    var all := core + [m];
    assert all[..|all| - 1] == core && all[..|all|] == all;
  }

  /** The source's loop. */
  method ToAnthropicRequest(ms: seq<Message>) returns (system: Option<string>, out: seq<OutMessage>)
    ensures out == Translate(Core(ms))
    ensures system == if SystemTexts(ms) == [] then None else Some(JoinTexts(SystemTexts(ms)))
  {
    var systemParts: seq<string> := [];
    var pending: seq<Block> := [];
    out := [];
    for i := 0 to |ms|
      invariant systemParts == SystemTexts(ms[..i])
      invariant out == Emitted(Core(ms[..i])) && pending == PendingResults(Core(ms[..i]))
    {
      var m := ms[i];
      assert ms[..i + 1][..i] == ms[..i];
      if m.System? {
        if m.content.Plain? { systemParts := systemParts + [m.content.text]; }
      } else if m.Tool? {
        AfterTool(Core(ms[..i]), m);
        pending := pending + [ToolResult(m.id, m.result)];
      } else {
        EmittedIsTranslate(Core(ms[..i]));
        AfterOther(Core(ms[..i]), m);
        out := out + Flush(pending);
        pending := [];
        out := out + [Pack(RoleOf(m), BlocksOf(m))];
      }
    }
    assert ms[..|ms|] == ms;
    EmittedIsTranslate(Core(ms));
    out := out + Flush(pending);
    system := if systemParts == [] then None else Some(JoinTexts(systemParts));
  }

  // ------------------------------------------------------------- what is kept

  /** A block with the role it is sent under; empty texts say nothing. */
  function Tagged(role: Role, blocks: seq<Block>): seq<(Role, Block)>
    decreases |blocks|
  {
    if blocks == [] then []
    else
      var last := blocks[|blocks| - 1];
      Tagged(role, blocks[..|blocks| - 1]) + (if last == Text("") then [] else [(role, last)])
  }

  function OutBlocks(c: OutContent): seq<Block> {
    match c
    case Str(t) => [Text(t)]
    case Blocks(bs) => bs
  }

  function FlatIn(core: seq<Message>): seq<(Role, Block)>
    decreases |core|
  {
    if core == [] then []
    else FlatIn(core[..|core| - 1]) + Tagged(RoleOf(core[|core| - 1]), BlocksOf(core[|core| - 1]))
  }

  function FlatOut(out: seq<OutMessage>): seq<(Role, Block)>
    decreases |out|
  {
    if out == [] then []
    else FlatOut(out[..|out| - 1]) + Tagged(out[|out| - 1].role, OutBlocks(out[|out| - 1].content))
  }

  lemma FlatOutSnoc(out: seq<OutMessage>, m: OutMessage)
    ensures FlatOut(out + [m]) == FlatOut(out) + Tagged(m.role, OutBlocks(m.content))
  {
  }

  lemma PackKeepsBlocks(role: Role, blocks: seq<Block>)
    ensures Tagged(role, OutBlocks(Pack(role, blocks).content)) == Tagged(role, blocks)
  {
  }

  lemma FlatInSnoc(core: seq<Message>, m: Message)
    ensures FlatIn(core + [m]) == FlatIn(core) + Tagged(RoleOf(m), BlocksOf(m))
  {
  }

  lemma TaggedResultsSnoc(run: seq<Message>, m: Message)
    requires IsTool(m)
    ensures Tagged(UserRole, Results(run + [m])) == Tagged(UserRole, Results(run)) + Tagged(UserRole, BlocksOf(m))
  {
  }

  lemma SplitLast<T>(a: seq<T>, b: seq<T>)
    requires b != []
    ensures b == b[..|b| - 1] + [b[|b| - 1]] && a + b == (a + b[..|b| - 1]) + [b[|b| - 1]]
  {
  }

  /** A run of tool messages adds its results, in order. */
  lemma {:induction false} FlatRun(before: seq<Message>, run: seq<Message>)
    requires forall i :: 0 <= i < |run| ==> IsTool(run[i])
    ensures FlatIn(before + run) == FlatIn(before) + Tagged(UserRole, Results(run))
    decreases |run|
  {
    if run == [] {
      assert before + run == before;
    } else {
      var init, last := run[..|run| - 1], run[|run| - 1];
      SplitLast(before, run);
      FlatRun(before, init);
      FlatInSnoc(before + init, last);
      TaggedResultsSnoc(init, last);
      Glue(FlatIn(before), Tagged(UserRole, Results(init)), Tagged(UserRole, BlocksOf(last)));
    }
  }

  lemma TrailingRunIsTools(core: seq<Message>)
    ensures var cut := |core| - TrailingRun(core); forall i :: cut <= i < |core| ==> IsTool(core[i])
  {
  }

  lemma {:induction false} FlatCut(core: seq<Message>, cut: nat)
    requires cut <= |core|
    requires forall i :: cut <= i < |core| ==> IsTool(core[i])
    ensures FlatIn(core) == FlatIn(core[..cut]) + Tagged(UserRole, Results(core[cut..]))
  {
    assert core[..cut] + core[cut..] == core;
    FlatRun(core[..cut], core[cut..]);
  }

  lemma OneOtherMessage(core: seq<Message>)
    requires core != [] && TrailingRun(core) == 0
    requires FlatOut(Translate(core[..|core| - 1])) == FlatIn(core[..|core| - 1])
    ensures FlatOut(Translate(core)) == FlatIn(core)
  {
    var init, last := core[..|core| - 1], core[|core| - 1];
    FlatOutSnoc(Translate(init), Pack(RoleOf(last), BlocksOf(last)));
    PackKeepsBlocks(RoleOf(last), BlocksOf(last));
  }

  lemma OneRun(core: seq<Message>)
    requires TrailingRun(core) > 0
    requires var before := core[..|core| - TrailingRun(core)]; FlatOut(Translate(before)) == FlatIn(before)
    ensures FlatOut(Translate(core)) == FlatIn(core)
  {
    var cut := |core| - TrailingRun(core);
    FlatOutSnoc(Translate(core[..cut]), OutMessage(UserRole, Blocks(Results(core[cut..]))));
    TrailingRunIsTools(core);
    FlatCut(core, cut);
  }

  /**
    Every non-empty block of every non-system message arrives once, in order,
    under its role; nothing else does. In particular no tool result is lost or
    repeated.
   */
  lemma {:induction false} TranslationKeepsBlocks(core: seq<Message>)
    ensures FlatOut(Translate(core)) == FlatIn(core)
    decreases |core|
  {
    if core != [] {
      var k := TrailingRun(core);
      if k == 0 {
        TranslationKeepsBlocks(core[..|core| - 1]);
        OneOtherMessage(core);
      } else {
        TranslationKeepsBlocks(core[..|core| - k]);
        OneRun(core);
      }
    }
  }

  /** Tool messages that start a run. */
  function RunStarts(core: seq<Message>): nat
    decreases |core|
  {
    if core == [] then 0
    else
      var n := |core| - 1;
      RunStarts(core[..n]) + (if IsTool(core[n]) && (n == 0 || !IsTool(core[n - 1])) then 1 else 0)
  }

  function Others(core: seq<Message>): nat
    decreases |core|
  {
    if core == [] then 0 else Others(core[..|core| - 1]) + (if IsTool(core[|core| - 1]) then 0 else 1)
  }

  lemma {:induction false} RunCounts(core: seq<Message>, k: nat)
    requires 0 < k <= TrailingRun(core)
    ensures Others(core) == Others(core[..|core| - k])
    ensures k == TrailingRun(core) ==> RunStarts(core) == RunStarts(core[..|core| - k]) + 1
    ensures k < TrailingRun(core) ==> RunStarts(core) == RunStarts(core[..|core| - k])
    decreases k
  {
    var init := core[..|core| - 1];
    if k > 1 {
      RunCounts(init, k - 1);
      assert init[..|init| - (k - 1)] == core[..|core| - k];
      LastIsTool(init, k - 1);
    } else if TrailingRun(core) > 1 {
      LastIsTool(init, 1);
    }
  }

  lemma LastIsTool(core: seq<Message>, k: nat)
    requires 0 < k <= TrailingRun(core)
    ensures IsTool(core[|core| - 1])
  {
  }

  /** One output message for each maximal run of tool messages and one for each other message. */
  lemma {:induction false} OneMessagePerRun(core: seq<Message>)
    ensures |Translate(core)| == Others(core) + RunStarts(core)
    decreases |core|
  {
    if core != [] {
      var k := TrailingRun(core);
      if k == 0 {
        OneMessagePerRun(core[..|core| - 1]);
      } else {
        OneMessagePerRun(core[..|core| - k]);
        RunCounts(core, k);
      }
    }
  }
}
