/**
 * `AgentLightningTracker` of utils/agent_lightning_tracker.py: an
 * append-only log of prompt, response, reward and tool-call events, gated by
 * the `agent_lightning` settings, with a per-type summary and a session dump.
 *
 * Timestamps (`datetime.now().isoformat()`) are the instant passed to each
 * call; the session id, formatted from the clock at construction, is a
 * parameter of the constructor.
 */
module LightningTracker {
  import opened Wrappers
  import opened Text
  import opened ArxivApi

  /** The `metadata` and `args` dictionaries, as text to text. */
  type Metadata = map<string, string>

  /** One tracked event; `timestamp` is the instant it was emitted. */
  datatype Event =
    | PromptEvent(eventId: string, agentName: string, timestamp: int, prompt: string, metadata: Metadata)
    | ResponseEvent(eventId: string, parentEventId: string, timestamp: int, response: string, metadata: Metadata)
    | RewardEvent(eventId: string, parentEventId: string, timestamp: int, reward: real, reason: string)
    | ToolCallEvent(eventId: string, agentName: string, timestamp: int, toolName: string, args: Metadata,
                    result: string, metadata: Metadata)

  /** The `event_type` field of each kind of event. */
  function EventType(e: Event): string {
    match e
    case PromptEvent(_, _, _, _, _) => "prompt"
    case ResponseEvent(_, _, _, _, _) => "response"
    case RewardEvent(_, _, _, _, _) => "reward"
    case ToolCallEvent(_, _, _, _, _, _, _) => "tool_call"
  }

  /** The `agent_lightning` section of the configuration; `None` is a missing key. */
  datatype TrackerSection = TrackerSection(
    enabled: Option<bool>,
    storePath: Option<string>,
    trackPrompts: Option<bool>,
    trackResponses: Option<bool>,
    trackRewards: Option<bool>)

  /** The longest tool result kept in an event. */
  const MaxResultLength: nat := 500

  /** How the event at position `i` of the log is named: prompts and tool calls by position, the others by their parent. */
  predicate WellNamed(e: Event, i: nat) {
    match e
    case PromptEvent(id, agent, _, _, _) => id == agent + "_" + NatToString(i)
    case ResponseEvent(id, parent, _, _, _) => id == parent + "_response"
    case RewardEvent(id, parent, _, _, _) => id == parent + "_reward"
    case ToolCallEvent(id, agent, _, _, _, _, _) => id == agent + "_tool_" + NatToString(i)
  }

  /** What `get_summary` returns. */
  datatype TrackerSummary = TrackerSummary(
    sessionId: string,
    enabled: bool,
    totalEvents: nat,
    eventTypes: map<string, nat>,
    storePath: string)

  /** What `save_session` writes: `start_time` is the first event's timestamp and `end_time` the instant of the call. */
  datatype SessionFile = SessionFile(
    path: string,
    sessionId: string,
    startTime: int,
    endTime: int,
    totalEvents: nat,
    events: seq<Event>)

  /** `event_types`: the number of events of each type seen so far, as the summary loop builds it. */
  function TypeCounts(events: seq<Event>): map<string, nat> {
    if |events| == 0 then map[]
    else
      var counts := TypeCounts(events[..|events| - 1]);
      var t := EventType(events[|events| - 1]);
      counts[t := (if t in counts then counts[t] else 0) + 1]
  }

  /** The types of the events, in order. */
  function Types(events: seq<Event>): (ts: seq<string>)
    ensures |ts| == |events| && forall i :: 0 <= i < |events| ==> ts[i] == EventType(events[i])
  {
    seq(|events|, i requires 0 <= i < |events| => EventType(events[i]))
  }

  /** `event_types.get(t, 0)`. */
  function CountOf(counts: map<string, nat>, t: string): nat {
    if t in counts then counts[t] else 0
  }

  class Tracker {
    const enabled: bool
    const storePath: string
    const trackPrompts: bool
    const trackResponses: bool
    const trackRewards: bool
    const sessionId: string
    var events: seq<Event>

    /** A disabled tracker records nothing, and every event is named after its position or its parent. */
    ghost predicate Valid()
      reads this
    {
      && (!enabled ==> events == [])
      && forall i :: 0 <= i < |events| ==> WellNamed(events[i], i)
    }

    /**
     * `__init__`: a missing section or key takes its default (disabled,
     * "data/lightning_store", every kind tracked); the log starts empty.
     */
    constructor (config: Option<TrackerSection>, sessionId: string)
      ensures Valid() && events == []
      ensures var sec := config.GetOr(TrackerSection(None, None, None, None, None));
              && enabled == sec.enabled.GetOr(false)
              && storePath == sec.storePath.GetOr("data/lightning_store")
              && trackPrompts == sec.trackPrompts.GetOr(true)
              && trackResponses == sec.trackResponses.GetOr(true)
              && trackRewards == sec.trackRewards.GetOr(true)
              && this.sessionId == sessionId
    {
      var sec := config.GetOr(TrackerSection(None, None, None, None, None));
      enabled := sec.enabled.GetOr(false);
      storePath := sec.storePath.GetOr("data/lightning_store");
      trackPrompts := sec.trackPrompts.GetOr(true);
      trackResponses := sec.trackResponses.GetOr(true);
      trackRewards := sec.trackRewards.GetOr(true);
      this.sessionId := sessionId;
      events := [];
    }

    /** `emit_prompt`: when prompts are tracked, append a prompt event named after the agent and its position. */
    method EmitPrompt(agentName: string, prompt: string, metadata: Option<Metadata>, now: int) returns (eventId: string)
      requires Valid()
      modifies this
      ensures Valid()
      ensures !(enabled && trackPrompts) ==> eventId == "" && events == old(events)
      ensures enabled && trackPrompts ==>
        && eventId == agentName + "_" + NatToString(|old(events)|)
        && events == old(events) + [PromptEvent(eventId, agentName, now, prompt, metadata.GetOr(map[]))]
    {
      if !enabled || !trackPrompts {
        return "";
      }
      eventId := agentName + "_" + NatToString(|events|);
      events := events + [PromptEvent(eventId, agentName, now, prompt, metadata.GetOr(map[]))];
    }

    /** `emit_response`: when responses are tracked, append a response event named after its parent. */
    method EmitResponse(eventId: string, response: string, metadata: Option<Metadata>, now: int)
      requires Valid()
      modifies this
      ensures Valid()
      ensures !(enabled && trackResponses) ==> events == old(events)
      ensures enabled && trackResponses ==>
        events == old(events) + [ResponseEvent(eventId + "_response", eventId, now, response, metadata.GetOr(map[]))]
    {
      if !enabled || !trackResponses {
        return;
      }
      events := events + [ResponseEvent(eventId + "_response", eventId, now, response, metadata.GetOr(map[]))];
    }

    /** `emit_reward`: when rewards are tracked, append a reward event named after its parent. */
    method EmitReward(eventId: string, reward: real, reason: string, now: int)
      requires Valid()
      modifies this
      ensures Valid()
      ensures !(enabled && trackRewards) ==> events == old(events)
      ensures enabled && trackRewards ==>
        events == old(events) + [RewardEvent(eventId + "_reward", eventId, now, reward, reason)]
    {
      if !enabled || !trackRewards {
        return;
      }
      events := events + [RewardEvent(eventId + "_reward", eventId, now, reward, reason)];
    }

    /**
     * `emit_tool_call`, given `str(result)`: gated by `enabled` alone; the
     * result is cut to its first 500 characters.
     */
    method EmitToolCall(agentName: string, toolName: string, args: Metadata, result: string,
                        metadata: Option<Metadata>, now: int) returns (eventId: string)
      requires Valid()
      modifies this
      ensures Valid()
      ensures !enabled ==> eventId == "" && events == old(events)
      ensures enabled ==>
        && eventId == agentName + "_tool_" + NatToString(|old(events)|)
        && events == old(events) + [ToolCallEvent(eventId, agentName, now, toolName, args,
                                                  PyTake(result, MaxResultLength), metadata.GetOr(map[]))]
    {
      if !enabled {
        return "";
      }
      eventId := agentName + "_tool_" + NatToString(|events|);
      events := events + [ToolCallEvent(eventId, agentName, now, toolName, args,
                                        PyTake(result, MaxResultLength), metadata.GetOr(map[]))];
    }

    /** Where `save_session` writes. */
    function SessionPath(): string
      reads this
    {
      JoinPath(storePath, "session_" + sessionId + ".json")
    }

    /** The dump `save_session` writes at instant `now`: nothing when disabled or when the log is empty. */
    function SessionDump(now: int): (dump: Option<SessionFile>)
      reads this
      ensures dump.None? <==> !enabled || events == []
      ensures dump.Some? ==> && dump.value.events == events && dump.value.totalEvents == |events|
                             && dump.value.startTime == events[0].timestamp && dump.value.endTime == now
                             && dump.value.path == SessionPath()
    {
      if !enabled || events == [] then None
      else Some(SessionFile(SessionPath(), sessionId, events[0].timestamp, now, |events|, events))
    }

    /** `save_session`: writes the dump, when there is one, and changes nothing else. */
    method SaveSession(disk: Disk, now: int) returns (written: Option<SessionFile>)
      modifies disk
      ensures written == SessionDump(now)
      ensures written.None? ==> disk.files == old(disk.files)
      ensures written.Some? ==> disk.files == old(disk.files) + {SessionPath()}
    {
      if !enabled || events == [] {
        return None;
      }
      written := Some(SessionFile(SessionPath(), sessionId, events[0].timestamp, now, |events|, events));
      disk.files := disk.files + {SessionPath()};
    }

    /** `get_summary`: the per-type counts are built by one pass over the log. */
    method GetSummary() returns (summary: TrackerSummary)
      ensures summary.totalEvents == |events|
      ensures forall t :: CountOf(summary.eventTypes, t) == multiset(Types(events))[t]
      ensures forall t :: t in summary.eventTypes <==> t in Types(events)
      ensures summary.sessionId == sessionId && summary.enabled == enabled && summary.storePath == storePath
    {
      var counts: map<string, nat> := map[];
      for i := 0 to |events|
        invariant counts == TypeCounts(events[..i])
      {
        var t := EventType(events[i]);
        counts := counts[t := (if t in counts then counts[t] else 0) + 1];
        assert events[..i + 1][..i] == events[..i];
      }
      assert events[..|events|] == events;
      TypeCountsMeaning(events);
      summary := TrackerSummary(sessionId, enabled, |events|, counts, storePath);
    }
  }

  // ---------------------------------------------------------------------
  // What the log promises
  // ---------------------------------------------------------------------

  /** The summary loop counts each type: its entry is the number of events of that type, and only types that occur have one. */
  lemma {:induction false} TypeCountsMeaning(events: seq<Event>)
    ensures forall t :: CountOf(TypeCounts(events), t) == multiset(Types(events))[t]
    ensures forall t :: t in TypeCounts(events) <==> t in Types(events)
  {
    if |events| > 0 {
      var init := events[..|events| - 1];
      TypeCountsMeaning(init);
      assert Types(events) == Types(init) + [EventType(events[|events| - 1])];
    }
  }

  /** Every event has one of four types, so the four counts add up to the number of events. */
  lemma {:induction false} CountsAddUp(events: seq<Event>)
    ensures var counts := TypeCounts(events);
            && CountOf(counts, "prompt") + CountOf(counts, "response") + CountOf(counts, "reward")
               + CountOf(counts, "tool_call") == |events|
            && forall t :: t in counts ==> t in {"prompt", "response", "reward", "tool_call"}
  {
    if |events| > 0 {
      CountsAddUp(events[..|events| - 1]);
    }
  }

  /** The position a prompt or tool-call event is named after: its id ends in "_" and that position. */
  lemma PositionInId(e: Event, i: nat)
    requires WellNamed(e, i) && (e.PromptEvent? || e.ToolCallEvent?)
    ensures LastSegment(e.eventId, '_') == NatToString(i)
  {
    var digits := NatToString(i);
    assert '_' !in digits;
    if e.PromptEvent? {
      assert e.eventId == e.agentName + ['_'] + digits;
      LastSegmentAfterSep(e.agentName, '_', digits);
    } else {
      assert e.eventId == e.agentName + "_tool" + ['_'] + digits;
      LastSegmentAfterSep(e.agentName + "_tool", '_', digits);
    }
  }

  /** In a valid log no two prompt or tool-call events share an id, whatever the agents are called. */
  lemma IdsUnique(events: seq<Event>, i: nat, j: nat)
    requires forall k :: 0 <= k < |events| ==> WellNamed(events[k], k)
    requires i < j < |events|
    requires events[i].PromptEvent? || events[i].ToolCallEvent?
    requires events[j].PromptEvent? || events[j].ToolCallEvent?
    ensures events[i].eventId != events[j].eventId
  {
    PositionInId(events[i], i);
    PositionInId(events[j], j);
    if events[i].eventId == events[j].eventId {
      NatToStringInjective(i, j);
    }
  }
}
