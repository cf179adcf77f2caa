/**
 * `get_human_video_track`: the video track the session watches is the
 * first remote video track already published in the room, in participant
 * then publication order, or else the first remote video track that a
 * `track_subscribed` event delivers afterwards.
 */
module Tracks {
  import opened Wrappers

  datatype Track =
    | RemoteVideoTrack(sid: nat)
    | RemoteAudioTrack(sid: nat)
    | LocalTrack(sid: nat)

  /** A track publication; its track is `None` until subscribed. */
  datatype Publication = Publication(track: Option<Track>)

  /** A remote participant with its publications in enumeration order. */
  datatype Participant = Participant(tracks: seq<Publication>)

  /** `t_pub.track is not None and isinstance(t_pub.track, rtc.RemoteVideoTrack)` */
  predicate IsVideo(p: Publication) {
    p.track.Some? && p.track.value.RemoteVideoTrack?
  }

  /** The tracks the inner loop collects from one participant's publications. */
  function VideoTracksOf(pubs: seq<Publication>): (r: seq<Track>)
    ensures |r| <= |pubs|
    ensures forall k :: 0 <= k < |r| ==> r[k].RemoteVideoTrack?
  {
    if pubs == [] then []
    else
      var last := pubs[|pubs| - 1];
      VideoTracksOf(pubs[..|pubs| - 1]) + (if IsVideo(last) then [last.track.value] else [])
  }

  /** `remote_video_tracks` after both loops over the room's participants. */
  function VideoTracks(ps: seq<Participant>): (r: seq<Track>)
    ensures forall k :: 0 <= k < |r| ==> r[k].RemoteVideoTrack?
  {
    if ps == [] then []
    else VideoTracks(ps[..|ps| - 1]) + VideoTracksOf(ps[|ps| - 1].tracks)
  }

  /** The track the `track_subscribed` listener resolves the future with, if any. */
  function FirstVideoEvent(events: seq<Track>): (r: Option<Track>)
    ensures r.Some? ==> r.value.RemoteVideoTrack? && r.value in events
  {
    if events == [] then None
    else if events[0].RemoteVideoTrack? then Some(events[0])
    else FirstVideoEvent(events[1..])
  }

  /** The track `get_human_video_track` returns; `None` while it is still waiting. */
  function HumanVideoTrack(ps: seq<Participant>, events: seq<Track>): (r: Option<Track>)
    ensures r.Some? ==> r.value.RemoteVideoTrack?
    ensures VideoTracks(ps) != [] ==> r.Some? && r.value in VideoTracks(ps)
  {
    var found := VideoTracks(ps);
    if |found| > 0 then Some(found[0]) else FirstVideoEvent(events)
  }

  /** `track_future.set_result(t)`: a future may be resolved once only. */
  function Resolve(future: Option<Track>, t: Track): Option<Track>
    requires future.None?
  {
    Some(t)
  }

  /** Publication `q` of participant `p` exists and carries a remote video track. */
  ghost predicate VideoAt(ps: seq<Participant>, p: int, q: int) {
    0 <= p < |ps| && 0 <= q < |ps[p].tracks| && IsVideo(ps[p].tracks[q])
  }

  /** Every collected track is a remote video track found at some publication. */
  lemma {:induction false} VideoTracksOfSound(pubs: seq<Publication>, k: nat)
    requires k < |VideoTracksOf(pubs)|
    ensures VideoTracksOf(pubs)[k].RemoteVideoTrack?
    ensures exists q :: 0 <= q < |pubs| && IsVideo(pubs[q]) && pubs[q].track.value == VideoTracksOf(pubs)[k]
    decreases |pubs|
  {
    var init := pubs[..|pubs| - 1];
    if k < |VideoTracksOf(init)| {
      VideoTracksOfSound(init, k);
      var q :| 0 <= q < |init| && IsVideo(init[q]) && init[q].track.value == VideoTracksOf(init)[k];
      assert pubs[q] == init[q];
    } else {
      assert IsVideo(pubs[|pubs| - 1]);
    }
  }

  /** The inner loop collects nothing exactly when no publication carries a video track. */
  lemma {:induction false} VideoTracksOfEmpty(pubs: seq<Publication>)
    ensures VideoTracksOf(pubs) == [] <==> forall q :: 0 <= q < |pubs| ==> !IsVideo(pubs[q])
    decreases |pubs|
  {
    if pubs != [] {
      var init := pubs[..|pubs| - 1];
      VideoTracksOfEmpty(init);
      assert forall q :: 0 <= q < |init| ==> init[q] == pubs[q];
    }
  }

  /** The first collected track comes from the first video publication. */
  lemma {:induction false} VideoTracksOfFirst(pubs: seq<Publication>, q: nat)
    requires q < |pubs| && IsVideo(pubs[q])
    requires forall j :: 0 <= j < q ==> !IsVideo(pubs[j])
    ensures VideoTracksOf(pubs) != [] && VideoTracksOf(pubs)[0] == pubs[q].track.value
    decreases |pubs|
  {
    var init := pubs[..|pubs| - 1];
    if q < |pubs| - 1 {
      VideoTracksOfFirst(init, q);
    } else {
      VideoTracksOfEmpty(init);
    }
  }

  /** The scan collects nothing exactly when no participant publishes a video track. */
  lemma {:induction false} VideoTracksEmpty(ps: seq<Participant>)
    ensures VideoTracks(ps) == [] <==> forall p, q :: !VideoAt(ps, p, q)
    decreases |ps|
  {
    if ps != [] {
      var init := ps[..|ps| - 1];
      var last := ps[|ps| - 1];
      VideoTracksEmpty(init);
      VideoTracksOfEmpty(last.tracks);
      if VideoTracks(ps) == [] {
        forall p, q ensures !VideoAt(ps, p, q) {
          if 0 <= p < |init| {
            assert VideoAt(ps, p, q) == VideoAt(init, p, q);
          }
        }
      } else {
        if VideoTracks(init) != [] {
          var p, q :| VideoAt(init, p, q);
          assert VideoAt(ps, p, q);
        } else {
          var q :| 0 <= q < |last.tracks| && IsVideo(last.tracks[q]);
          assert VideoAt(ps, |ps| - 1, q);
        }
      }
    }
  }

  /**
   * The scan's first track is the one at the first video publication in
   * participant-then-publication order.
   */
  lemma {:induction false} VideoTracksFirst(ps: seq<Participant>, p: nat, q: nat)
    requires VideoAt(ps, p, q)
    requires forall p', q' :: VideoAt(ps, p', q') ==> p < p' || (p == p' && q <= q')
    ensures VideoTracks(ps) != [] && VideoTracks(ps)[0] == ps[p].tracks[q].track.value
    decreases |ps|
  {
    var init := ps[..|ps| - 1];
    if p < |ps| - 1 {
      forall p', q' | VideoAt(init, p', q') ensures p < p' || (p == p' && q <= q') {
        assert VideoAt(ps, p', q');
      }
      VideoTracksFirst(init, p, q);
    } else {
      VideoTracksEmpty(init);
      forall j | 0 <= j < q ensures !IsVideo(ps[p].tracks[j]) {
        assert !VideoAt(ps, p, j);
      }
      VideoTracksOfFirst(ps[p].tracks, q);
      forall p', q' ensures !VideoAt(init, p', q') {
        if VideoAt(init, p', q') {
          assert VideoAt(ps, p', q');
        }
      }
    }
  }

  /** The listener resolves with the first remote video track among the events. */
  lemma {:induction false} FirstVideoEventAt(events: seq<Track>, k: nat)
    requires k < |events| && events[k].RemoteVideoTrack?
    requires forall j :: 0 <= j < k ==> !events[j].RemoteVideoTrack?
    ensures FirstVideoEvent(events) == Some(events[k])
    decreases k
  {
    if k > 0 {
      FirstVideoEventAt(events[1..], k - 1);
    }
  }

  /** With no remote video track among the events the future stays pending. */
  lemma {:induction false} FirstVideoEventNone(events: seq<Track>)
    requires forall j :: 0 <= j < |events| ==> !events[j].RemoteVideoTrack?
    ensures FirstVideoEvent(events) == None
    decreases |events|
  {
    if events != [] {
      FirstVideoEventNone(events[1..]);
    }
  }

  /**
   * `get_human_video_track(room)`: the listener is attached, the nested
   * loops collect the published remote video tracks, the future is resolved
   * with the first of them or else by the first video track among the
   * subscription `events`, and the listener is detached once the future is
   * resolved. `heard` is the number of events the listener saw.
   */
  method GetHumanVideoTrack(ps: seq<Participant>, events: seq<Track>) returns (track: Option<Track>, heard: nat)
    ensures track == HumanVideoTrack(ps, events)
    ensures heard <= |events|
    ensures VideoTracks(ps) != [] ==> heard == 0
    ensures VideoTracks(ps) == [] && track.Some? ==>
      0 < heard && events[heard - 1] == track.value && track.value.RemoteVideoTrack? &&
      forall j :: 0 <= j < heard - 1 ==> !events[j].RemoteVideoTrack?
    ensures track.None? ==> heard == |events|
  {
    var future: Option<Track> := None;
    var remote: seq<Track> := [];
    var i := 0;
    while i < |ps|
      invariant 0 <= i <= |ps|
      invariant remote == VideoTracks(ps[..i])
    {
      var pubs := ps[i].tracks;
      var j := 0;
      while j < |pubs|
        invariant 0 <= j <= |pubs|
        invariant remote == VideoTracks(ps[..i]) + VideoTracksOf(pubs[..j])
      {
        var t := pubs[j].track;
        if t.Some? && t.value.RemoteVideoTrack? {
          remote := remote + [t.value];
        }
        assert pubs[..j + 1][..j] == pubs[..j];
        j := j + 1;
      }
      assert pubs[..j] == pubs;
      assert ps[..i + 1][..i] == ps[..i];
      i := i + 1;
    }
    assert ps[..i] == ps;
    if |remote| > 0 {
      future := Resolve(future, remote[0]);
    }
    heard := 0;
    while future.None? && heard < |events|
      invariant heard <= |events|
      invariant |remote| > 0 ==> heard == 0 && future == Some(remote[0])
      invariant |remote| == 0 && future.None? ==>
        forall j :: 0 <= j < heard ==> !events[j].RemoteVideoTrack?
      invariant |remote| == 0 && future.Some? ==>
        0 < heard && events[heard - 1] == future.value && future.value.RemoteVideoTrack? &&
        forall j :: 0 <= j < heard - 1 ==> !events[j].RemoteVideoTrack?
    {
      if events[heard].RemoteVideoTrack? {
        future := Resolve(future, events[heard]);
      }
      heard := heard + 1;
    }
    if |remote| == 0 {
      if future.Some? {
        FirstVideoEventAt(events, heard - 1);
      } else {
        FirstVideoEventNone(events);
      }
    }
    track := future;
  }
}
