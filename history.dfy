/**
 * The bounded multimodal history as values: the chat history
 * (`initial_ctx.messages`) and the image backlog (`img_msg_queue`), the
 * latter written as positions into the former. `Respond` is what
 * `respond_to_image` does to them; the lemmas state what it keeps.
 */
module History {
  import opened Wrappers
  import opened Chat

  datatype Context = Context(turns: seq<Turn>, queue: seq<nat>)

  /** The result of one `respond_to_image` call: the new context and what is said. */
  datatype Step = Step(context: Context, action: Action)

  /** Every backlog entry refers to a turn of the history. */
  ghost predicate WellFormed(c: Context) {
    forall k :: 0 <= k < |c.queue| ==> c.queue[k] < |c.turns|
  }

  ghost predicate StrictlyIncreasing(q: seq<nat>) {
    forall k, l :: 0 <= k < l < |q| ==> q[k] < q[l]
  }

  /** `q` lists, oldest first, exactly the positions of `ts` whose turn carries an image. */
  ghost predicate ListsImageTurns(ts: seq<Turn>, q: seq<nat>) {
    StrictlyIncreasing(q) &&
    (forall k :: 0 <= k < |q| ==> q[k] < |ts|) &&
    (forall i :: 0 <= i < |ts| ==> (ts[i].images != [] <==> i in q))
  }

  /**
   * The session invariant: the persona comes first and carries no image,
   * each turn carries at most one image, the backlog lists the image-bearing
   * turns in insertion order, and it is shorter than MAX_IMAGES.
   */
  ghost predicate Inv(c: Context) {
    |c.turns| >= 1 && c.turns[0].role == System && c.turns[0].images == [] &&
    (forall i :: 0 <= i < |c.turns| ==> |c.turns[i].images| <= 1) &&
    ListsImageTurns(c.turns, c.queue) &&
    |c.queue| < MAX_IMAGES
  }

  /** The number of turns that carry an image. */
  function ImageTurnCount(ts: seq<Turn>): nat {
    if ts == [] then 0
    else ImageTurnCount(ts[..|ts| - 1]) + (if ts[|ts| - 1].images != [] then 1 else 0)
  }

  /** The context at session start: the persona message alone, an empty backlog. */
  function Initial(persona: string): (c: Context)
    ensures Inv(c) && c.turns[0].text == persona
  {
    Context([Turn(System, persona, [])], [])
  }

  /** `msg.images = []` on the turn at position `i`. */
  function ClearImages(ts: seq<Turn>, i: nat): (r: seq<Turn>)
    requires i < |ts|
    ensures |r| == |ts| && r[i].images == []
    ensures r[i].role == ts[i].role && r[i].text == ts[i].text
    ensures forall j :: 0 <= j < |ts| && j != i ==> r[j] == ts[j]
  {
    ts[i := ts[i].(images := [])]
  }

  /**
   * Append a user turn carrying `frame`, push its position on the backlog,
   * and once the backlog length has reached MAX_IMAGES pop its oldest entry
   * and clear that turn's images.
   */
  function Push(c: Context, text: string, frame: Frame): (r: Context)
    requires WellFormed(c)
    ensures WellFormed(r)
    ensures |r.turns| == |c.turns| + 1 && r.turns[|c.turns|] == Turn(User, text, [ChatImage(frame)])
    ensures r.queue != [] && |r.queue| <= |c.queue| + 1 && r.queue[|r.queue| - 1] == |c.turns|
  {
    var turns := c.turns + [Turn(User, text, [ChatImage(frame)])];
    var queue := c.queue + [|c.turns|];
    if |queue| >= MAX_IMAGES then Context(ClearImages(turns, queue[0]), queue[1..])
    else Context(turns, queue)
  }

  /**
   * `respond_to_image(user_msg)`: without a frame, say the fallback and
   * change nothing; with one, push the user turn and have the model answer
   * the whole updated history, interruptibly.
   */
  function Respond(c: Context, latest: Option<Frame>, userMsg: string, fallback: string): (r: Step)
    requires WellFormed(c)
    ensures WellFormed(r.context)
    ensures r.action.what.Literal? <==> latest.None?
    ensures r.action.what.ModelReply? ==> r.action.what.prompt == r.context.turns
    ensures latest.None? <==> r.context == c
  {
    match latest
    case None => Step(c, Say(Literal(fallback), DefaultPolicy))
    case Some(frame) =>
      var c' := Push(c, userMsg, frame);
      Step(c', Say(ModelReply(c'.turns), Allowed))
  }

  lemma InvWellFormed(c: Context)
    requires Inv(c)
    ensures WellFormed(c)
  {
  }

  /** The invariant holds after every image turn. */
  lemma PushPreservesInv(c: Context, text: string, frame: Frame)
    requires Inv(c)
    ensures WellFormed(c) && Inv(Push(c, text, frame))
  {
    var n := |c.turns|;
    var turns := c.turns + [Turn(User, text, [ChatImage(frame)])];
    var queue := c.queue + [n];
    assert StrictlyIncreasing(queue);
    var c' := Push(c, text, frame);
    if |queue| >= MAX_IMAGES {
      var e := queue[0];
      assert e == c.queue[0] && e != 0;
      forall i | 0 <= i < |c'.turns|
        ensures c'.turns[i].images != [] <==> i in c'.queue
      {
        if i == e {
          assert e !in c'.queue;
        } else {
          assert i in queue <==> i in c'.queue;
        }
      }
    }
  }

  /**
   * The shape of one image turn: one user turn carrying the frame is added
   * at the end; older turns keep their role and text; at most one of them,
   * the oldest in the backlog, changes, and only by losing its images; the
   * persona is untouched and never enters the backlog.
   */
  lemma PushShape(c: Context, text: string, frame: Frame)
    requires Inv(c)
    ensures WellFormed(c)
    ensures var c' := Push(c, text, frame);
      |c'.turns| == |c.turns| + 1 &&
      c'.turns[|c.turns|] == Turn(User, text, [ChatImage(frame)]) &&
      c'.turns[0] == c.turns[0] && 0 !in c'.queue &&
      (forall i :: 0 <= i < |c.turns| ==>
        c'.turns[i].role == c.turns[i].role && c'.turns[i].text == c.turns[i].text) &&
      (forall i :: 0 <= i < |c.turns| && c'.turns[i] != c.turns[i] ==>
        |c.queue| == MAX_IMAGES - 1 && i == c.queue[0] && c'.turns[i].images == [])
  {
  }

  /**
   * The backlog is first in, first out: while it is short the new turn is
   * queued behind the others; once it holds MAX_IMAGES - 1 entries the
   * oldest one is popped and its turn loses its image.
   */
  lemma PushEvictsOldest(c: Context, text: string, frame: Frame)
    requires Inv(c)
    ensures WellFormed(c)
    ensures var c' := Push(c, text, frame);
      if |c.queue| < MAX_IMAGES - 1 then
        c'.queue == c.queue + [|c.turns|] && c'.turns[..|c.turns|] == c.turns
      else
        c'.queue == c.queue[1..] + [|c.turns|] &&
        c.turns[c.queue[0]].images != [] && c'.turns[c.queue[0]].images == []
  {
  }

  /** A strictly increasing sequence of naturals below `n` has at most `n` entries. */
  lemma {:induction false} IncreasingBelow(q: seq<nat>, n: nat)
    requires StrictlyIncreasing(q) && forall k :: 0 <= k < |q| ==> q[k] < n
    ensures |q| <= n
    decreases |q|
  {
    if q != [] {
      var m := |q| - 1;
      IncreasingBelow(q[..m], q[m]);
    }
  }

  /** Dropping a last turn that carries an image drops the newest backlog entry. */
  lemma ListedDropImageTurn(ts: seq<Turn>, q: seq<nat>)
    requires ListsImageTurns(ts, q) && ts != [] && ts[|ts| - 1].images != []
    ensures q != [] && q[|q| - 1] == |ts| - 1
    ensures ListsImageTurns(ts[..|ts| - 1], q[..|q| - 1])
  {
  }

  /** Dropping a last turn without an image leaves the backlog as it is. */
  lemma ListedDropPlainTurn(ts: seq<Turn>, q: seq<nat>)
    requires ListsImageTurns(ts, q) && ts != [] && ts[|ts| - 1].images == []
    ensures ListsImageTurns(ts[..|ts| - 1], q)
  {
  }

  /** A backlog that lists the image-bearing turns has one entry per such turn. */
  lemma {:induction false} ListedCount(ts: seq<Turn>, q: seq<nat>)
    requires ListsImageTurns(ts, q)
    ensures |q| == ImageTurnCount(ts)
    decreases |ts|
  {
    if ts == [] {
      IncreasingBelow(q, 0);
    } else if ts[|ts| - 1].images != [] {
      ListedDropImageTurn(ts, q);
      ListedCount(ts[..|ts| - 1], q[..|q| - 1]);
    } else {
      ListedDropPlainTurn(ts, q);
      ListedCount(ts[..|ts| - 1], q);
    }
  }

  /** The backlog length is the number of image-bearing turns, and at most MAX_IMAGES - 1. */
  lemma ImageTurnsBounded(c: Context)
    requires Inv(c)
    ensures ImageTurnCount(c.turns) == |c.queue| <= MAX_IMAGES - 1
  {
    ListedCount(c.turns, c.queue);
  }

  /**
   * Without a frame only the fallback is said and the context is unchanged;
   * with one the model is asked, once, to answer the whole updated history,
   * whose last turn is the user's text with the frame, and the invariant holds.
   */
  lemma RespondContract(c: Context, latest: Option<Frame>, userMsg: string, fallback: string)
    requires Inv(c)
    ensures WellFormed(c)
    ensures var r := Respond(c, latest, userMsg, fallback);
      Inv(r.context) &&
      (r.action.what.Literal? <==> latest.None?) &&
      (latest.None? ==> r.context == c && r.action.what.text == fallback) &&
      (latest.Some? ==>
        r.action.interruptions == Allowed &&
        r.action.what.prompt == r.context.turns &&
        |r.context.turns| == |c.turns| + 1 &&
        r.context.turns[|c.turns|] == Turn(User, userMsg, [ChatImage(latest.value)]))
  {
    InvWellFormed(c);
    if latest.Some? {
      PushPreservesInv(c, userMsg, latest.value);
    }
  }

  /** One `respond_to_image` call: the frame in the register at that moment and the user text. */
  datatype ImageRequest = ImageRequest(latest: Option<Frame>, userMsg: string)

  /** The context after a series of `respond_to_image` calls, in order. */
  function Replay(c: Context, requests: seq<ImageRequest>, fallback: string): Context
    requires Inv(c)
    decreases |requests|
  {
    if requests == [] then c
    else
      InvWellFormed(c);
      RespondContract(c, requests[0].latest, requests[0].userMsg, fallback);
      var next := Respond(c, requests[0].latest, requests[0].userMsg, fallback).context;
      Replay(next, requests[1..], fallback)
  }

  /**
   * Over any series of image requests the history never shrinks, every
   * earlier turn keeps its role and text, the persona stays first and
   * unchanged, and at most MAX_IMAGES - 1 turns carry an image.
   */
  lemma {:induction false} ReplayKeepsInv(c: Context, requests: seq<ImageRequest>, fallback: string)
    requires Inv(c)
    ensures var r := Replay(c, requests, fallback);
      Inv(r) && ImageTurnCount(r.turns) <= MAX_IMAGES - 1 &&
      |r.turns| >= |c.turns| && r.turns[0] == c.turns[0] &&
      forall i :: 0 <= i < |c.turns| ==>
        r.turns[i].role == c.turns[i].role && r.turns[i].text == c.turns[i].text
    decreases |requests|
  {
    if requests == [] {
      ImageTurnsBounded(c);
    } else {
      var req := requests[0];
      InvWellFormed(c);
      RespondContract(c, req.latest, req.userMsg, fallback);
      var next := Respond(c, req.latest, req.userMsg, fallback).context;
      if req.latest.Some? {
        PushShape(c, req.userMsg, req.latest.value);
      }
      ReplayKeepsInv(next, requests[1..], fallback);
    }
  }

  /**
   * With MAX_IMAGES = 3 the third image turn already evicts the first: at
   * most two turns carry an image.
   */
  lemma ThirdImageEvictsFirst(persona: string, t1: string, t2: string, t3: string, f1: Frame, f2: Frame, f3: Frame)
    ensures
      var c0 := Initial(persona);
      var c1 := Push(c0, t1, f1);
      var c2 := Push(c1, t2, f2);
      var c3 := Push(c2, t3, f3);
      c2.queue == [1, 2] && c2.turns[1].images == [ChatImage(f1)] &&
      c3.queue == [2, 3] && |c3.turns| == 4 &&
      c3.turns[1] == Turn(User, t1, []) &&
      c3.turns[2].images == [ChatImage(f2)] && c3.turns[3].images == [ChatImage(f3)]
  {
  }
}
