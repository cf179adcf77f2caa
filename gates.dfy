/**
 * The small decisions around the image history: the text-chat handler,
 * the vision tool and its `user_msg` metadata, and the room-name test
 * that decides whether the vision tool is offered at all.
 */
module Gates {
  import opened Wrappers
  import opened Chat
  import History

  /** The metadata key under which the vision tool records its argument. */
  const USER_MSG_KEY: string := "user_msg"

  /** The turn-scoped metadata of the assistant context. */
  type Metadata = map<string, string>

  /** `AssistantFnc.image`: the tool's only effect is to record `user_msg`. */
  function StoreUserMsg(metadata: Metadata, userMsg: string): (m: Metadata)
    ensures m.Keys == metadata.Keys + {USER_MSG_KEY}
    ensures m[USER_MSG_KEY] == userMsg
    ensures forall k :: k in metadata && k != USER_MSG_KEY ==> m[k] == metadata[k]
  {
    metadata[USER_MSG_KEY := userMsg]
  }

  /**
   * The test in `_function_calls_done`: `not user_msg` is true both for a
   * missing key (`get_metadata` yields `None`) and for the empty string.
   */
  function PendingUserMsg(metadata: Metadata): (r: Option<string>)
    ensures r.Some? ==> r.value != "" && USER_MSG_KEY in metadata && metadata[USER_MSG_KEY] == r.value
  {
    if USER_MSG_KEY in metadata && metadata[USER_MSG_KEY] != "" then Some(metadata[USER_MSG_KEY])
    else None
  }

  /** Python's `str.startswith`, one character at a time. */
  predicate StartsWith(s: string, prefix: string)
    decreases prefix
  {
    prefix == [] || (s != [] && s[0] == prefix[0] && StartsWith(s[1..], prefix[1..]))
  }

  /** `StartsWith` holds exactly when `prefix` is an initial segment of `s`. */
  lemma {:induction false} StartsWithIsPrefix(s: string, prefix: string)
    ensures StartsWith(s, prefix) <==> |prefix| <= |s| && s[..|prefix|] == prefix
    decreases prefix
  {
    if prefix != [] && s != [] {
      StartsWithIsPrefix(s[1..], prefix[1..]);
      if |prefix| <= |s| && s[..|prefix|] == prefix {
        assert s[1..][..|prefix| - 1] == prefix[1..];
      }
      if StartsWith(s, prefix) {
        assert s[..|prefix|] == [s[0]] + s[1..][..|prefix| - 1];
        assert prefix == [prefix[0]] + prefix[1..];
      }
    }
  }

  /** `fnc_ctx=None if sip else AssistantFnc()` with `sip = name.startswith("sip")`. */
  function VisionToolOffered(roomName: string): (offered: bool)
    ensures offered <==> !(|roomName| >= 3 && roomName[..3] == "sip")
  {
    StartsWithIsPrefix(roomName, "sip");
    !StartsWith(roomName, "sip")
  }

  /**
   * One tool call by the language model during a turn: it reaches
   * `AssistantFnc.image` only when the tool was offered.
   */
  function InvokeVisionTool(offered: bool, metadata: Metadata, userMsg: string): (m: Metadata)
    ensures m.Keys <= metadata.Keys + {USER_MSG_KEY}
    ensures forall k :: k in metadata && k != USER_MSG_KEY ==> k in m && m[k] == metadata[k]
  {
    if offered then StoreUserMsg(metadata, userMsg) else metadata
  }

  /** The tool calls of one turn, in order. */
  function InvokeAll(offered: bool, metadata: Metadata, calls: seq<string>): (m: Metadata)
    ensures m.Keys <= metadata.Keys + {USER_MSG_KEY}
    ensures forall k :: k in metadata && k != USER_MSG_KEY ==> k in m && m[k] == metadata[k]
    decreases |calls|
  {
    if calls == [] then metadata
    else InvokeAll(offered, InvokeVisionTool(offered, metadata, calls[0]), calls[1..])
  }

  /** After tool calls, `user_msg` holds the argument of the last one. */
  lemma {:induction false} InvokeAllKeepsLast(offered: bool, metadata: Metadata, calls: seq<string>)
    ensures offered && calls != [] ==>
      USER_MSG_KEY in InvokeAll(offered, metadata, calls) &&
      InvokeAll(offered, metadata, calls)[USER_MSG_KEY] == calls[|calls| - 1]
    ensures !offered || calls == [] ==> InvokeAll(offered, metadata, calls) == metadata
    decreases |calls|
  {
    if calls != [] {
      InvokeAllKeepsLast(offered, InvokeVisionTool(offered, metadata, calls[0]), calls[1..]);
    }
  }

  /**
   * Starting from a turn's fresh metadata, an image response is started
   * after the function calls exactly when the tool is offered, was called,
   * and its last argument is non-empty, and it uses that argument: a second
   * call in the same turn replaces the first, and a "sip" room never starts one.
   */
  lemma {:induction false} PendingAfterToolCalls(roomName: string, calls: seq<string>)
    ensures PendingUserMsg(InvokeAll(VisionToolOffered(roomName), map[], calls)) ==
      if VisionToolOffered(roomName) && calls != [] && calls[|calls| - 1] != "" then
        Some(calls[|calls| - 1])
      else None
  {
    InvokeAllKeepsLast(VisionToolOffered(roomName), map[], calls);
  }

  /**
   * `_answer_from_text(text)`: a deep copy of the assistant's context with
   * one user turn appended, answered by the model; the context itself is a
   * value here, so the copy cannot change it.
   */
  function AnswerFromText(ambient: seq<Turn>, text: string): (a: Action)
    ensures a.interruptions == DefaultPolicy && a.what.ModelReply?
    ensures |a.what.prompt| == |ambient| + 1 && a.what.prompt[..|ambient|] == ambient
    ensures a.what.prompt[|ambient|] == Turn(User, text, [])
    ensures History.ImageTurnCount(a.what.prompt) == History.ImageTurnCount(ambient)
  {
    var prompt := ambient + [Turn(User, text, [])];
    assert prompt[..|ambient|] == ambient;
    Say(ModelReply(prompt), DefaultPolicy)
  }

  /** `on_chat_received`: `not msg.message` drops only the empty string. */
  function OnChatReceived(message: string, ambient: seq<Turn>): (r: Option<Action>)
    ensures r.None? <==> message == ""
    ensures r.Some? ==>
      r.value.what.ModelReply? &&
      |r.value.what.prompt| == |ambient| + 1 && r.value.what.prompt[..|ambient|] == ambient
  {
    if message == "" then None else Some(AnswerFromText(ambient, message))
  }

  /** Every whitespace-only message is forwarded to the model; only "" is dropped. */
  lemma WhitespaceIsForwarded(message: string, ambient: seq<Turn>)
    requires message != ""
    requires forall i :: 0 <= i < |message| ==> message[i] in {' ', '\t', '\n', '\r'}
    ensures OnChatReceived(message, ambient).Some?
  {
  }

  /**
   * The text path attaches no image: the prompt it builds has the same
   * image-bearing turns as the context it copied, so the image backlog of
   * the copied context still lists them.
   */
  lemma {:induction false} TextPromptAddsNoImage(ambient: seq<Turn>, queue: seq<nat>, message: string)
    requires message != ""
    requires History.ListsImageTurns(ambient, queue)
    ensures var prompt := OnChatReceived(message, ambient).value.what.prompt;
      History.ListsImageTurns(prompt, queue) &&
      History.ImageTurnCount(prompt) == History.ImageTurnCount(ambient)
  {
  }

  /**
   * Answering a chat message from the session's context: an empty message
   * schedules nothing; any other is answered from a prompt that begins with
   * the whole context, unchanged, and still carries at most MAX_IMAGES - 1
   * images, because the text path attaches none.
   */
  lemma ChatPromptKeepsImageCap(c: History.Context, message: string)
    requires History.Inv(c)
    ensures OnChatReceived(message, c.turns).None? <==> message == ""
    ensures message != "" ==>
      var prompt := OnChatReceived(message, c.turns).value.what.prompt;
      |prompt| == |c.turns| + 1 && prompt[..|c.turns|] == c.turns &&
      History.ImageTurnCount(prompt) == History.ImageTurnCount(c.turns) <= MAX_IMAGES - 1
  {
    History.ImageTurnsBounded(c);
    if message != "" {
      TextPromptAddsNoImage(c.turns, c.queue, message);
      var prompt := OnChatReceived(message, c.turns).value.what.prompt;
      assert prompt[..|c.turns|] == c.turns;
    }
  }
}
