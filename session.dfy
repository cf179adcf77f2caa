/**
 * The per-session state that `entrypoint` keeps in closure variables: the
 * chat history `initial_ctx.messages`, the image backlog `img_msg_queue`
 * (which holds the very message objects of the history) and the
 * `latest_image` register, with the handlers that change them.
 */
module Session {
  import opened Wrappers
  import opened Chat
  import opened History
  import Gates

  class VisionSession {
    /** `initial_ctx.messages`; the persona message comes first. */
    var history: seq<ChatMessage>
    /** `img_msg_queue`: the image-bearing messages, oldest first. */
    var backlog: seq<ChatMessage>
    /** `latest_image`: the last decoded video frame, if any. */
    var latest: Option<Frame>
    /** `NO_IMAGE_MESSAGE_GENERIC` of the persona. */
    const fallback: string
    /** The position in `history` of each backlog entry. */
    ghost var queue: seq<nat>

    /** The value of the history, message by message. */
    function Turns(): (ts: seq<Turn>)
      reads this, history
      ensures |ts| == |history|
      ensures forall i :: 0 <= i < |history| ==> ts[i] == history[i].View()
    {
      seq(|history|, i reads this, history requires 0 <= i < |history| => history[i].View())
    }

    ghost function Model(): Context
      reads this, history
    {
      Context(Turns(), queue)
    }

    /**
     * The history holds distinct message objects, and the backlog holds the
     * very objects found at the positions `queue` names.
     */
    ghost predicate Linked()
      reads this, history
    {
      (forall i, j :: 0 <= i < j < |history| ==> history[i] != history[j]) &&
      |backlog| == |queue| &&
      (forall k :: 0 <= k < |queue| ==> queue[k] < |history| && history[queue[k]] == backlog[k])
    }

    ghost predicate Valid()
      reads this, history
    {
      Linked() && Inv(Model())
    }

    /** Session start: the persona message alone, an empty backlog, no frame yet. */
    constructor (persona: string, fallback: string)
      ensures Valid() && fresh(history)
      ensures Model() == Initial(persona) && latest == None && this.fallback == fallback
    {
      var system := new ChatMessage(System, persona, []);
      history := [system];
      backlog := [];
      latest := None;
      queue := [];
      this.fallback := fallback;
    }

    /**
     * `respond_to_image`: without a frame only the fallback is said; with
     * one, a user message carrying the frame is appended to the history and
     * to the backlog, the oldest backlog message loses its image once the
     * backlog has reached MAX_IMAGES, and the model answers the history.
     */
    method RespondToImage(userMsg: string) returns (act: Action)
      requires Valid()
      modifies this, backlog
      ensures Valid() && latest == old(latest)
      ensures old(WellFormed(Model()))
      ensures Step(Model(), act) == Respond(old(Model()), old(latest), userMsg, fallback)
      ensures latest.None? ==> history == old(history) && backlog == old(backlog)
    {
      InvWellFormed(Model());
      if latest.None? {
        act := Say(Literal(fallback), DefaultPolicy);
        return;
      }
      ghost var before := Model();
      PushPreservesInv(before, userMsg, latest.value);
      var msg := new ChatMessage(User, userMsg, [ChatImage(latest.value)]);
      AppendImageMessage(msg);
      if |backlog| >= MAX_IMAGES {
        EvictOldest();
      }
      assert Model() == Push(before, userMsg, old(latest).value);
      act := Say(ModelReply(Turns()), Allowed);
    }

    /** `initial_ctx.messages.append(msg)` followed by `img_msg_queue.append(msg)`. */
    method AppendImageMessage(msg: ChatMessage)
      requires Linked() && msg !in history
      modifies this`history, this`backlog, this`queue
      ensures Linked()
      ensures history == old(history) + [msg] && backlog == old(backlog) + [msg]
      ensures Model() == Context(old(Turns()) + [msg.View()], old(queue) + [|old(history)|])
    {
      history := history + [msg];
      backlog := backlog + [msg];
      queue := queue + [|history| - 1];
    }

    /** `msg = img_msg_queue.popleft()` followed by `msg.images = []`. */
    method EvictOldest()
      requires Linked() && backlog != []
      modifies this`backlog, this`queue, backlog[0]
      ensures Linked() && history == old(history) && backlog == old(backlog)[1..]
      ensures old(queue)[0] < |history|
      ensures Model() == Context(ClearImages(old(Turns()), old(queue)[0]), old(queue)[1..])
    {
      var evicted := backlog[0];
      ghost var e := queue[0];
      backlog := backlog[1..];
      queue := queue[1..];
      evicted.images := [];
      assert forall i :: 0 <= i < |history| && i != e ==> history[i] != evicted;
    }

    /**
     * `_function_calls_done`: start an image response only when the turn's
     * metadata holds a non-empty `user_msg`.
     */
    method OnFunctionCallsFinished(metadata: Gates.Metadata) returns (act: Option<Action>)
      requires Valid()
      modifies this, backlog
      ensures Valid() && latest == old(latest)
      ensures old(WellFormed(Model()))
      ensures Gates.PendingUserMsg(metadata).None? ==>
        act.None? && history == old(history) && backlog == old(backlog) && Model() == old(Model())
      ensures Gates.PendingUserMsg(metadata).Some? ==>
        act.Some? &&
        Step(Model(), act.value) ==
          Respond(old(Model()), old(latest), Gates.PendingUserMsg(metadata).value, fallback)
    {
      InvWellFormed(Model());
      var userMsg := Gates.PendingUserMsg(metadata);
      if userMsg.None? {
        act := None;
        return;
      }
      var a := RespondToImage(userMsg.value);
      act := Some(a);
    }

    /**
     * The frame loop `latest_image = event.frame`: each frame overwrites the
     * register, so only the last one survives; the history is not touched.
     */
    method ReceiveFrames(frames: seq<Frame>)
      requires Valid()
      modifies this`latest
      ensures Valid()
      ensures latest == if frames == [] then old(latest) else Some(frames[|frames| - 1])
    {
      var i := 0;
      while i < |frames|
        invariant 0 <= i <= |frames|
        invariant latest == if i == 0 then old(latest) else Some(frames[i - 1])
      {
        latest := Some(frames[i]);
        i := i + 1;
      }
    }
  }
}
