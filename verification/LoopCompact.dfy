/**
  Transcript compaction of the agent loop. `goal` extracts the declared
  objective from a system prompt; it is a plain text search and a parameter here.
 */
module LoopCompact {
  import opened Common

  const PREVIEW_CHARS: nat := 500

  datatype ToolCall = ToolCall(id: string, name: string, arguments: string)

  datatype Message =
    | System(content: string)
    | User(content: string)
    | Assistant(content: string, toolCalls: seq<ToolCall>)
    | Tool(content: string, callId: Option<string>, name: Option<string>)

  type GoalFinder = string -> Option<string>

  function Preview(content: string): string {
    if |content| > PREVIEW_CHARS then content[..PREVIEW_CHARS] + "…" else content
  }

  function ToolPrefix(name: Option<string>): string {
    "[compacted " + (if name.Some? then name.value else "tool") + "] "
  }

  function DropArguments(calls: seq<ToolCall>): (r: seq<ToolCall>)
    ensures |r| == |calls|
    ensures forall i :: 0 <= i < |r| ==> r[i] == calls[i].(arguments := "{}")
  {
    seq(|calls|, i requires 0 <= i < |calls| => calls[i].(arguments := "{}"))
  }

  function CompactOne(m: Message): Message {
    match m
    case Tool(content, callId, name) => Tool(ToolPrefix(name) + Preview(content), callId, name)
    case Assistant(content, calls) => Assistant(Preview(content), DropArguments(calls))
    case User(content) => User(Preview(content))
    case System(_) => m
  }

  function CompactEach(ms: seq<Message>): (r: seq<Message>)
    ensures |r| == |ms| && forall i :: 0 <= i < |ms| ==> r[i] == CompactOne(ms[i])
  {
    seq(|ms|, i requires 0 <= i < |ms| => CompactOne(ms[i]))
  }

  /** `messages.filter(...)` by whether the role is system. */
  function Pick(ms: seq<Message>, system: bool): seq<Message>
    decreases |ms|
  {
    if ms == [] then []
    else
      var init, last := ms[..|ms| - 1], ms[|ms| - 1];
      if last.System? == system then Pick(init, system) + [last] else Pick(init, system)
  }

  function Systems(ms: seq<Message>): seq<Message> {
    Pick(ms, true)
  }

  function Rest(ms: seq<Message>): seq<Message> {
    Pick(ms, false)
  }

  function GoalReminders(systems: seq<Message>, goal: GoalFinder): seq<Message> {
    var g := goal(if systems == [] then "" else systems[0].content);
    if g.Some? then [System(g.value)] else []
  }

  /** Older messages shortened, the last `keepRecent` as they are. */
  function Compacted(rest: seq<Message>, keepRecent: nat): (r: seq<Message>)
    requires |rest| > keepRecent
    ensures |r| == |rest|
  {
    CompactEach(rest[..|rest| - keepRecent]) + rest[|rest| - keepRecent..]
  }

  function CompactTranscript(ms: seq<Message>, keepRecent: nat, goal: GoalFinder): seq<Message> {
    var systems, rest := Systems(ms), Rest(ms);
    if |rest| <= keepRecent then ms
    else (systems + GoalReminders(systems, goal)) + Compacted(rest, keepRecent)
  }

  // ----------------------------------------------------------------- skeleton

  /** What survives compaction of a message: its role, call ids and names, result id and name. */
  datatype Bone =
    | UserBone
    | AssistantBone(calls: seq<(string, string)>)
    | ToolBone(callId: Option<string>, name: Option<string>)
    | SystemBone

  function BoneOf(m: Message): Bone {
    match m
    case User(_) => UserBone
    case Assistant(_, calls) =>
      AssistantBone(seq(|calls|, i requires 0 <= i < |calls| => (calls[i].id, calls[i].name)))
    case Tool(_, callId, name) => ToolBone(callId, name)
    case System(_) => SystemBone
  }

  function Bones(ms: seq<Message>): (r: seq<Bone>)
    ensures |r| == |ms| && forall i :: 0 <= i < |ms| ==> r[i] == BoneOf(ms[i])
  {
    seq(|ms|, i requires 0 <= i < |ms| => BoneOf(ms[i]))
  }

  /** The skeleton of a transcript: the bones of its non-system messages, in order. */
  function Skeleton(ms: seq<Message>): seq<Bone> {
    Bones(Rest(ms))
  }

  lemma {:induction false} PickAppend(a: seq<Message>, b: seq<Message>, system: bool)
    ensures Pick(a + b, system) == Pick(a, system) + Pick(b, system)
    decreases |b|
  {
    if b == [] {
      assert a + b == a;
    } else {
      var init, last := b[..|b| - 1], b[|b| - 1];
      PickAppend(a, init, system);
      assert (a + b)[..|a + b| - 1] == a + init;
    }
  }

  ghost predicate AllOf(ms: seq<Message>, system: bool) {
    forall i :: 0 <= i < |ms| ==> ms[i].System? == system
  }

  lemma {:induction false} PickOfKind(ms: seq<Message>, kind: bool, system: bool)
    requires AllOf(ms, kind)
    ensures Pick(ms, system) == if kind == system then ms else []
    decreases |ms|
  {
    if ms != [] {
      PickOfKind(ms[..|ms| - 1], kind, system);
    }
  }

  lemma {:induction false} PickIsOfKind(ms: seq<Message>, system: bool)
    ensures AllOf(Pick(ms, system), system)
    decreases |ms|
  {
    if ms != [] { PickIsOfKind(ms[..|ms| - 1], system); }
  }

  lemma PickFrontBack(front: seq<Message>, back: seq<Message>)
    requires AllOf(front, true) && AllOf(back, false)
    ensures Systems(front + back) == front && Rest(front + back) == back
  {
    PickAppend(front, back, true);
    PickAppend(front, back, false);
    PickOfKind(front, true, true);
    PickOfKind(front, true, false);
    PickOfKind(back, false, true);
    PickOfKind(back, false, false);
  }

  lemma CompactedIsOfKind(rest: seq<Message>, keepRecent: nat)
    requires |rest| > keepRecent && AllOf(rest, false)
    ensures AllOf(Compacted(rest, keepRecent), false)
  {
  }

  /** A compaction that fires: what the two halves of the result are. */
  lemma CompactParts(ms: seq<Message>, keepRecent: nat, goal: GoalFinder)
    requires |Rest(ms)| > keepRecent
    ensures var r := CompactTranscript(ms, keepRecent, goal);
      Rest(r) == Compacted(Rest(ms), keepRecent) && Systems(r) == Systems(ms) + GoalReminders(Systems(ms), goal)
  {
    var front, back := Systems(ms) + GoalReminders(Systems(ms), goal), Compacted(Rest(ms), keepRecent);
    PickIsOfKind(ms, true);
    PickIsOfKind(ms, false);
    CompactedIsOfKind(Rest(ms), keepRecent);
    PickFrontBack(front, back);
  }

  lemma CompactKeepsBone(m: Message)
    ensures BoneOf(CompactOne(m)) == BoneOf(m)
  {
  }

  lemma CompactedBones(rest: seq<Message>, keepRecent: nat)
    requires |rest| > keepRecent
    ensures Bones(Compacted(rest, keepRecent)) == Bones(rest)
  {
    forall i | 0 <= i < |rest|
      ensures BoneOf(Compacted(rest, keepRecent)[i]) == BoneOf(rest[i])
    {
      CompactKeepsBone(rest[i]);
    }
  }

  /** Compaction keeps the skeleton, the system messages in front, and the recent messages verbatim. */
  lemma CompactKeepsSkeleton(ms: seq<Message>, keepRecent: nat, goal: GoalFinder)
    ensures var r := CompactTranscript(ms, keepRecent, goal);
      && Skeleton(r) == Skeleton(ms)
      && Systems(ms) <= Systems(r)
      && |Rest(r)| == |Rest(ms)|
      && var kept := if keepRecent < |Rest(ms)| then |Rest(ms)| - keepRecent else 0;
         Rest(r)[kept..] == Rest(ms)[kept..]
  {
    if |Rest(ms)| > keepRecent {
      CompactParts(ms, keepRecent, goal);
      CompactedBones(Rest(ms), keepRecent);
      CompactedTail(Rest(ms), keepRecent);
    }
  }

  lemma CompactedTail(rest: seq<Message>, keepRecent: nat)
    requires |rest| > keepRecent
    ensures Compacted(rest, keepRecent)[|rest| - keepRecent..] == rest[|rest| - keepRecent..]
  {
  }

  function SizeLimit(m: Message): nat {
    PREVIEW_CHARS + 1 + (if m.Tool? then 13 + (if m.name.Some? then |m.name.value| else 4) else 0)
  }

  lemma CompactOneIsSmall(m: Message)
    requires !m.System?
    ensures |CompactOne(m).content| <= SizeLimit(CompactOne(m))
  {
  }

  /** What an older message becomes: short texts stay whole, long ones keep their first 500 characters. */
  lemma CompactOneExact(m: Message)
    ensures var kept := if |m.content| <= 500 then m.content else m.content[..500] + "…";
      match m
      case System(_) => CompactOne(m) == m
      case User(_) => CompactOne(m) == User(kept)
      case Tool(_, callId, name) =>
        CompactOne(m) == Tool("[compacted " + (if name == None then "tool" else name.value) + "] " + kept, callId, name)
      case Assistant(_, calls) =>
        && CompactOne(m).Assistant? && CompactOne(m).content == kept && |CompactOne(m).toolCalls| == |calls|
        && forall i :: 0 <= i < |calls| ==> CompactOne(m).toolCalls[i] == ToolCall(calls[i].id, calls[i].name, "{}")
  {
  }

  /** A compaction that fires leaves the system messages, the first one's goal, the older ones compacted, the rest. */
  lemma CompactExact(ms: seq<Message>, keepRecent: nat, goal: GoalFinder)
    requires |Rest(ms)| > keepRecent
    ensures var r, n := CompactTranscript(ms, keepRecent, goal), |Rest(ms)| - keepRecent;
      var g := goal(if Systems(ms) == [] then "" else Systems(ms)[0].content);
      && Systems(r) == Systems(ms) + (if g.Some? then [System(g.value)] else [])
      && |Rest(r)| == |Rest(ms)|
      && (forall i :: 0 <= i < n ==> Rest(r)[i] == CompactOne(Rest(ms)[i]))
      && (forall i :: n <= i < |Rest(ms)| ==> Rest(r)[i] == Rest(ms)[i])
  {
    CompactParts(ms, keepRecent, goal);
    CompactedAt(Rest(ms), keepRecent);
  }

  lemma CompactedAt(rest: seq<Message>, keepRecent: nat)
    requires |rest| > keepRecent
    ensures var r, n := Compacted(rest, keepRecent), |rest| - keepRecent;
      && (forall i :: 0 <= i < n ==> r[i] == CompactOne(rest[i]))
      && (forall i :: n <= i < |rest| ==> r[i] == rest[i])
  {
  }

  /** Every older message is small after a compaction that fires. */
  lemma CompactedAreSmall(ms: seq<Message>, keepRecent: nat, goal: GoalFinder, i: nat)
    requires |Rest(ms)| > keepRecent && i < |Rest(ms)| - keepRecent
    ensures var r := Rest(CompactTranscript(ms, keepRecent, goal));
      i < |r| && r[i] == CompactOne(Rest(ms)[i]) && |r[i].content| <= SizeLimit(r[i])
  {
    CompactParts(ms, keepRecent, goal);
    PickIsOfKind(ms, false);
    CompactOneIsSmall(Rest(ms)[i]);
  }

  // --------------------------------------------------------------------- runs

  datatype Op = Append(m: Message) | Compact(keepRecent: nat)

  function Run(ms: seq<Message>, ops: seq<Op>, goal: GoalFinder): seq<Message>
    decreases |ops|
  {
    if ops == [] then ms
    else
      match ops[0]
      case Append(m) => Run(ms + [m], ops[1..], goal)
      case Compact(keepRecent) => Run(CompactTranscript(ms, keepRecent, goal), ops[1..], goal)
  }

  /** The transcript had it never been compacted. */
  function Appended(ms: seq<Message>, ops: seq<Op>): seq<Message>
    decreases |ops|
  {
    if ops == [] then ms
    else
      match ops[0]
      case Append(m) => Appended(ms + [m], ops[1..])
      case Compact(_) => Appended(ms, ops[1..])
  }

  lemma AppendKeepsSkeletons(a: seq<Message>, b: seq<Message>, m: Message)
    requires Skeleton(a) == Skeleton(b)
    ensures Skeleton(a + [m]) == Skeleton(b + [m])
  {
  }

  /** However appends and compactions interleave, the skeleton is that of the uncompacted transcript. */
  lemma {:induction false} RunKeepsSkeleton(a: seq<Message>, b: seq<Message>, ops: seq<Op>, goal: GoalFinder)
    requires Skeleton(a) == Skeleton(b)
    ensures Skeleton(Run(a, ops, goal)) == Skeleton(Appended(b, ops))
    decreases |ops|
  {
    if ops != [] {
      match ops[0]
      case Append(m) =>
        AppendKeepsSkeletons(a, b, m);
        RunKeepsSkeleton(a + [m], b + [m], ops[1..], goal);
      case Compact(keepRecent) =>
        CompactKeepsSkeleton(a, keepRecent, goal);
        RunKeepsSkeleton(CompactTranscript(a, keepRecent, goal), b, ops[1..], goal);
    }
  }

  /** Compacting a user or assistant message again changes nothing; only tool results wear down further. */
  lemma CompactTwice(m: Message)
    requires !m.Tool?
    ensures CompactOne(CompactOne(m)) == CompactOne(m)
  {
  }

  // ----------------------------------------------------------- goal reminders

  function SystemsAppended(ops: seq<Op>): nat
    decreases |ops|
  {
    if ops == [] then 0 else (if ops[0].Append? && ops[0].m.System? then 1 else 0) + SystemsAppended(ops[1..])
  }

  /** Compactions that fire, judged on the transcript that was never compacted. */
  function Fired(ms: seq<Message>, ops: seq<Op>): nat
    decreases |ops|
  {
    if ops == [] then 0
    else
      match ops[0]
      case Append(m) => Fired(ms + [m], ops[1..])
      case Compact(keepRecent) => (if |Rest(ms)| > keepRecent then 1 else 0) + Fired(ms, ops[1..])
  }

  ghost predicate HasGoal(ms: seq<Message>, goal: GoalFinder) {
    Systems(ms) != [] && goal(Systems(ms)[0].content).Some?
  }

  lemma AppendedSystems(ms: seq<Message>, m: Message)
    ensures Systems(ms + [m]) == Systems(ms) + (if m.System? then [m] else [])
  {
    assert (ms + [m])[..|ms|] == ms;
  }

  /**
    Reminders pile up: once a goal is declared, every compaction that fires adds
    one more system message, and nothing ever removes one.
   */
  lemma {:induction false} RemindersPileUp(a: seq<Message>, b: seq<Message>, ops: seq<Op>, goal: GoalFinder)
    requires Skeleton(a) == Skeleton(b) && HasGoal(a, goal)
    ensures |Systems(Run(a, ops, goal))| == |Systems(a)| + SystemsAppended(ops) + Fired(b, ops)
    decreases |ops|
  {
    if ops != [] {
      match ops[0]
      case Append(m) =>
        AppendKeepsSkeletons(a, b, m);
        AppendedSystems(a, m);
        RemindersPileUp(a + [m], b + [m], ops[1..], goal);
      case Compact(keepRecent) =>
        CompactKeepsSkeleton(a, keepRecent, goal);
        if |Rest(a)| > keepRecent { CompactParts(a, keepRecent, goal); }
        assert |Rest(a)| == |Skeleton(a)| == |Skeleton(b)| == |Rest(b)|;
        RemindersPileUp(CompactTranscript(a, keepRecent, goal), b, ops[1..], goal);
    }
  }
}
