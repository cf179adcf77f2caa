# Live-Agent: bounded multimodal history of a voice agent session

The backend of Live-Agent runs one LiveKit voice assistant per room. Each
persona script (`summit_agent_fr.py`, `control_plagas_fr.py`,
`poker_agent_es.py`, `poker_agent_fr.py`, `poker_agent_en.py`,
`asafata_fr.py`, `conserje.py`, `agent2_fr.py`) repeats the same session
logic. Only the persona prompt, the greeting, the "no image" fallback
string, the voice and the speech-to-text language differ. This project is
one Dafny model of that shared logic:

- **The image history** (`respond_to_image`). The chat history starts with
  the SYSTEM persona message. When the vision tool has fired and a video
  frame is available, a USER message carrying the frame is appended. The
  same message object is pushed on a FIFO backlog (`img_msg_queue`). When
  the backlog length reaches `MAX_IMAGES` (3), the oldest entry is popped
  and its `images` are cleared in place. The language model is then asked
  to answer the whole history. With no frame, only the fallback string is
  spoken.
- **The gates.** The text-chat handler ignores an empty message and answers
  any other one from a copy of the context plus one USER turn. The vision
  tool only records its argument under `"user_msg"`. The
  `function_calls_finished` handler starts an image response only for a
  non-empty `"user_msg"`. Rooms whose name starts with `sip` get no vision
  tool.
- **Video-track selection** (`get_human_video_track`). The first remote
  video track published in the room is taken, scanning participants and then
  their publications. Failing that, the first remote video track delivered
  by a `track_subscribed` event is taken.
- **The frame register.** Every received frame overwrites `latest_image`.

Files:

- `wrappers.dfy`: `Option`.
- `chat.dfy`: roles, frames, turns, the mutable `ChatMessage` class, and the
  `Action` values that stand for `assistant.say` (of a literal, or of the
  model's reply to `gpt.chat(prompt)`).
- `history.dfy`: the history and backlog as values, `Respond` (what
  `respond_to_image` does) and the lemmas about it.
- `session.dfy`: the class `VisionSession`. It holds the history and backlog
  as shared `ChatMessage` objects plus `latest`. Its methods are proved
  against `History.Respond`.
- `gates.dfy`: the chat filter, the vision tool, the `user_msg` gate and the
  `sip` test.
- `tracks.dfy`: track selection with its nested loops, and the
  first-match lemmas.

Behaviour that the model follows from the code:

- **At most two images.** `MAX_IMAGES = 3` suggests three image-bearing
  turns, but the test `len(img_msg_queue) >= MAX_IMAGES` runs after the
  push. So at most two turns carry an image after each image response.
  `History.ImageTurnsBounded` and `History.ThirdImageEvictsFirst` state
  this: the third image turn already evicts the first.
- **Whitespace is forwarded.** `not msg.message` drops only the empty
  string, so whitespace-only chat text is forwarded to the model
  (`Gates.WhitespaceIsForwarded`).
- **Within a turn, the last tool call wins.** The vision tool overwrites
  `"user_msg"`, so after several calls in one turn only the last argument
  starts an image response (`Gates.PendingAfterToolCalls`).

All eight scripts have the same code for the modelled functions, at these
lines (the table below cites `summit_agent_fr.py`):

| script | `MAX_IMAGES` | `image` tool | `get_human_video_track` | `sip` | chat handler | `respond_to_image` | `_function_calls_done` | frame loop |
|---|---|---|---|---|---|---|---|---|
| summit_agent_fr.py | 23 | 35-43 | 46-68 | 72, 255 | 261-273 | 275-294 | 296-301 | 307-310 |
| control_plagas_fr.py | 23 | 35-43 | 46-68 | 72, 154 | 160-172 | 174-193 | 195-200 | 206-209 |
| poker_agent_es.py | 23 | 35-43 | 46-68 | 72, 146 | 152-164 | 166-185 | 187-192 | 198-201 |
| poker_agent_fr.py | 23 | 35-43 | 46-68 | 72, 144 | 150-162 | 164-183 | 185-190 | 196-199 |
| poker_agent_en.py | 23 | 35-43 | 46-68 | 72, 147 | 153-165 | 167-186 | 188-193 | 199-202 |
| asafata_fr.py | 23 | 35-43 | 46-68 | 72, 133 | 139-151 | 153-172 | 174-179 | 185-188 |
| conserje.py | 24 | 37-45 | 47-69 | 72, 118 | 124-136 | 138-157 | 159-164 | 170-173 |
| agent2_fr.py | 21 | 33-41 | 44-66 | 70, 99 | 105-117 | 119-138 | 140-145 | 151-154 |

## Model

| member | source | states |
|---|---|---|
| History.Initial | backend/src/summit_agent_fr.py:73-77 | At session start the history is the persona SYSTEM message alone, with its text, no image and an empty backlog; the session invariant holds. |
| History.ClearImages | backend/src/summit_agent_fr.py:290-291 | `msg.images = []` on one turn: the history keeps its length, that turn keeps its role and text and has no image, and every other turn is unchanged. |
| History.Push | backend/src/summit_agent_fr.py:281-291 | One image turn: the history grows by exactly one USER turn carrying the text and the frame, the backlog gains at most one entry and its newest entry is the new turn, and every backlog entry still names a turn of the history. |
| History.Respond | backend/src/summit_agent_fr.py:275-294 | Exactly the frameless calls say the literal fallback, and exactly those leave the context unchanged; a model reply is asked for the new history itself; the backlog keeps naming turns of the history. |
| History.PushPreservesInv | backend/src/summit_agent_fr.py:281-291 | After an image turn the invariant still holds: the persona is first and has no image, every turn has at most one image, the backlog lists exactly the image-bearing turns in insertion order, and it is shorter than MAX_IMAGES. |
| History.PushShape | backend/src/summit_agent_fr.py:281-291 | An image turn appends exactly one USER turn with the given text and the one current frame. Every earlier turn keeps its role and text. Only the oldest backlog turn may change, and only by losing its images, and only when the backlog held MAX_IMAGES - 1 entries. The persona is unchanged and never in the backlog. |
| History.PushEvictsOldest | backend/src/summit_agent_fr.py:288-291 | FIFO eviction. Below MAX_IMAGES - 1 entries, the new turn is queued last and no earlier turn changes. Otherwise the oldest entry is popped, the new turn is queued last, and the popped turn, which carried an image, carries none afterwards. |
| History.ListedCount | backend/src/summit_agent_fr.py:288-291 | A backlog that lists the image-bearing turns in order has exactly one entry per image-bearing turn. |
| History.ImageTurnsBounded | backend/src/summit_agent_fr.py:23 | Under the invariant, the number of image-bearing turns equals the backlog length and is at most MAX_IMAGES - 1 = 2. |
| History.RespondContract | backend/src/summit_agent_fr.py:275-294 | With no frame, exactly the fallback literal is said and the history and backlog are unchanged. With a frame, the model is asked once to answer the full updated history, with interruptions allowed; that history is one turn longer and ends with the user's text and the frame. The invariant holds either way. |
| History.ReplayKeepsInv | backend/src/summit_agent_fr.py:275-294 | Over any series of image requests, the history never shrinks, earlier turns keep role and text, the persona stays first and unchanged, and at most two turns carry an image. |
| History.ThirdImageEvictsFirst | backend/src/summit_agent_fr.py:288-291 | Starting from the persona alone, two image turns leave both images in place. The third clears the first turn's image, keeps its text, and leaves the backlog at the second and third turns. |
| Session.VisionSession.constructor | backend/src/summit_agent_fr.py:247-248 | A new session holds the persona message alone, an empty backlog and no frame, and its object invariant holds. |
| Session.VisionSession.RespondToImage | backend/src/summit_agent_fr.py:275-294 | The shared-object history, backlog and register change exactly as History.Respond says, and the action returned is the one Respond gives. Without a frame, no field changes. The object invariant is kept: messages are distinct, backlog entries are the history's own objects, and Inv holds of their values. |
| Session.VisionSession.AppendImageMessage | backend/src/summit_agent_fr.py:281-288 | The new message object is appended to both the history and the backlog. The history's value gains that message's value and the backlog gains its position. |
| Session.VisionSession.EvictOldest | backend/src/summit_agent_fr.py:289-291 | The oldest backlog object is popped. Clearing its images changes the history's value at that position only, and the history itself is unchanged. |
| Session.VisionSession.OnFunctionCallsFinished | backend/src/summit_agent_fr.py:296-301 | With a missing or empty `user_msg`, nothing happens and no action is produced. Otherwise exactly one image response is run with that text, as RespondToImage specifies. |
| Session.VisionSession.ReceiveFrames | backend/src/summit_agent_fr.py:307-310 | After a stream of frames, the register holds the last one, or its old value if the stream was empty. Nothing else in the session changes. |
| Gates.StoreUserMsg | backend/src/summit_agent_fr.py:42-43 | The vision tool sets `user_msg` to its argument and leaves every other metadata key as it was. |
| Gates.PendingUserMsg | backend/src/summit_agent_fr.py:298-300 | A response is started only with a non-empty text, and that text is the one stored under `user_msg`; the decision over a whole turn is stated by PendingAfterToolCalls. |
| Gates.InvokeVisionTool | backend/src/summit_agent_fr.py:35-43 | One tool call can change or add only the `user_msg` key; every other metadata key is kept. |
| Gates.InvokeAll | backend/src/summit_agent_fr.py:35-43 | Any number of tool calls in one turn change or add only the `user_msg` key; every other metadata key is kept. |
| Gates.InvokeAllKeepsLast | backend/src/summit_agent_fr.py:42-43 | After one or more calls of an offered tool, `user_msg` holds the last call's argument. Without the tool, or without calls, the metadata is unchanged. |
| Gates.PendingAfterToolCalls | backend/src/summit_agent_fr.py:296-301 | From a turn's fresh metadata, an image response starts exactly when the room offers the tool, it was called, and its last argument is non-empty. It then uses that argument, so one follow-up per turn and never in a `sip` room. |
| Gates.StartsWithIsPrefix | backend/src/summit_agent_fr.py:72 | The recursive `startswith` holds exactly when the prefix is an initial segment of the string. |
| Gates.VisionToolOffered | backend/src/summit_agent_fr.py:255 | `fnc_ctx` is the vision tool exactly when the room name does not begin with "sip"; `sip` (line 72) is computed with the recursive StartsWith, related to the prefix form by StartsWithIsPrefix. |
| Gates.AnswerFromText | backend/src/summit_agent_fr.py:261-266 | The model is asked, without enabling interruptions, to answer a prompt that is the whole context unchanged followed by one USER turn with the text and no image, so the prompt has as many image-bearing turns as the context. |
| Gates.OnChatReceived | backend/src/summit_agent_fr.py:268-273 | Nothing is scheduled exactly when the message is empty; otherwise a model reply is scheduled whose prompt begins with the whole context and is one turn longer. |
| Gates.ChatPromptKeepsImageCap | backend/src/summit_agent_fr.py:261-273 | Under the session invariant, a non-empty chat message is answered from a prompt that starts with the unchanged context and still holds at most MAX_IMAGES - 1 = 2 image-bearing turns; only the empty message is dropped. |
| Gates.WhitespaceIsForwarded | backend/src/summit_agent_fr.py:270-271 | Every non-empty message made only of spaces, tabs, newlines or carriage returns is forwarded to the model, not dropped. |
| Gates.TextPromptAddsNoImage | backend/src/summit_agent_fr.py:261-263 | The text path adds no image. Its prompt has the same image-bearing turns as the copied context, and that context's backlog still lists them. |
| Tracks.VideoTracksOf | backend/src/summit_agent_fr.py:57-61 | The inner loop over one participant collects at most one track per publication, and only remote video tracks. |
| Tracks.VideoTracks | backend/src/summit_agent_fr.py:55-61 | Both loops together collect only remote video tracks. |
| Tracks.VideoTracksOfSound | backend/src/summit_agent_fr.py:57-61 | Every track the inner loop collects is a remote video track taken from one of the participant's publications. |
| Tracks.VideoTracksOfEmpty | backend/src/summit_agent_fr.py:57-61 | The inner loop collects nothing exactly when no publication has a remote video track; `None` and non-video tracks are skipped. |
| Tracks.VideoTracksOfFirst | backend/src/summit_agent_fr.py:57-61 | The inner loop's first track is the track of the first video publication. |
| Tracks.VideoTracksEmpty | backend/src/summit_agent_fr.py:55-63 | The scan finds nothing exactly when no participant publishes a remote video track. |
| Tracks.VideoTracksFirst | backend/src/summit_agent_fr.py:55-64 | The scan's first track is the one at the first video publication in participant-then-publication order. |
| Tracks.FirstVideoEvent | backend/src/summit_agent_fr.py:49-51 | The listener resolves, if at all, with a remote video track that was among the subscription events. |
| Tracks.FirstVideoEventAt | backend/src/summit_agent_fr.py:49-51 | The subscription listener resolves with the first remote video track among the events, skipping other tracks. |
| Tracks.FirstVideoEventNone | backend/src/summit_agent_fr.py:49-51 | With no remote video track among the events, the future stays unresolved. |
| Tracks.HumanVideoTrack | backend/src/summit_agent_fr.py:46-68 | The returned track, if any, is a remote video track; when one is already published the result is one of the published ones. |
| Tracks.GetHumanVideoTrack | backend/src/summit_agent_fr.py:46-68 | The nested loops and the listener return the first scanned video track; no event is consumed in that case. Otherwise they return the first video track among the events, and no event after it is heard, because the listener is detached. If none arrives, the call is still waiting after every event. |

## Left out

- The calls into LiveKit, OpenAI, Deepgram, Silero and the TTS `StreamAdapter` are not modelled. `gpt.chat` and `assistant.say` appear only as the returned `Action` values.
- A failed model call is not modelled. In the code the appended turn would stay in the history.
- The asyncio scheduling is not modelled: `create_task`, `ensure_future`, `sleep(0.5)`, and the interleaving of chat, vision and frame tasks. Each handler is modelled as running to completion.
- The second `set_result` on the track future is not modelled. It would happen if two video tracks were subscribed before the waiting task resumed. The model delivers events one by one and stops at the first video track; `Tracks.Resolve` requires an unresolved future (resolve once).
- Listener registration and deregistration on the room are not modelled as state. Detaching appears as the listener hearing no further event once the future is resolved.
- The `VideoStream` iteration and the outer `connection_state` loop that acquires the next track are not modelled. Only the register overwrite per frame is kept (`ReceiveFrames`).
- Session.VisionSession.RespondToImage: `if not latest_image` is modelled as "no frame yet". A received frame object is taken to be truthy.
- The persona prompt texts, greetings, fallback wording, voice, model names and speech-to-text language are not modelled. The persona and fallback strings are constructor parameters, and the greeting is left out.
- The deep copy in `_answer_from_text` is a value copy. `Gates.OnChatReceived` takes the assistant's context as a value, because whether it is the same object as `initial_ctx` is decided inside `VoiceAssistant`. For the same reason, turns that the voice pipeline itself may add to the context are not modelled.
- Turn-scoped metadata is assumed fresh at each turn. `_function_calls_done` reads `"user_msg"` but never clears it; whether it is cleared between turns is decided inside `VoiceAssistant` and `AssistantContext`, which are not part of this repository. `Gates.PendingAfterToolCalls` therefore starts each turn from an empty map; if the framework kept metadata across turns, a stale `user_msg` could start another image response.
- Gates.StoreUserMsg: metadata values are modelled as strings only. The tool's argument is a `str`.
- `request_fnc`, `cli.run_app`, `logging_config.py` (log setup) and the Android `MainActivity.kt` (UI and room connection) are outside the session logic and are not modelled.
