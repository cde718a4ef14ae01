/** `getCurrentLyric` and `getNextLyric`: first-match scans over the
    captions at a playback time given in seconds. */
module LyricQuery {
  import opened Wrappers
  import opened SrtParser
  import opened Search

  /** A caption time in seconds, as `parseTimeToSeconds` reports it. */
  function Seconds(ms: nat): real {
    ms as real / 1000.0
  }

  /** The caption is on screen at `t`: both ends count. */
  predicate IsShowing(l: LyricLine, t: real) {
    Seconds(l.startMs) <= t <= Seconds(l.endMs)
  }

  /** The caption has not started yet at `t`. */
  predicate IsUpcoming(l: LyricLine, t: real) {
    Seconds(l.startMs) > t
  }

  /** `getCurrentLyric`. */
  function GetCurrentLyric(lyrics: seq<LyricLine>, t: real): (r: Option<LyricLine>)
    ensures r.None? <==> forall i :: 0 <= i < |lyrics| ==> !IsShowing(lyrics[i], t)
    ensures r.Some? ==> exists i :: 0 <= i < |lyrics| && lyrics[i] == r.value
                          && IsShowing(lyrics[i], t)
                          && forall k :: 0 <= k < i ==> !IsShowing(lyrics[k], t)
  {
    match FindIndex(lyrics, l => IsShowing(l, t))
    case None => None
    case Some(i) => Some(lyrics[i])
  }

  /** `getNextLyric`. */
  function GetNextLyric(lyrics: seq<LyricLine>, t: real): (r: Option<LyricLine>)
    ensures r.None? <==> forall i :: 0 <= i < |lyrics| ==> !IsUpcoming(lyrics[i], t)
    ensures r.Some? ==> exists i :: 0 <= i < |lyrics| && lyrics[i] == r.value
                          && IsUpcoming(lyrics[i], t)
                          && forall k :: 0 <= k < i ==> !IsUpcoming(lyrics[k], t)
  {
    match FindIndex(lyrics, l => IsUpcoming(l, t))
    case None => None
    case Some(i) => Some(lyrics[i])
  }

  /** Captions in order of their start times, as a SubRip file lists them. */
  predicate StartSorted(lyrics: seq<LyricLine>) {
    forall i, j :: 0 <= i < j < |lyrics| ==> lyrics[i].startMs <= lyrics[j].startMs
  }

  /** Over start-sorted captions the next caption is the one with the
      earliest start after `t`. */
  lemma NextIsEarliestUpcoming(lyrics: seq<LyricLine>, t: real)
    requires StartSorted(lyrics)
    requires GetNextLyric(lyrics, t).Some?
    ensures IsUpcoming(GetNextLyric(lyrics, t).value, t)
    ensures forall k :: 0 <= k < |lyrics| && IsUpcoming(lyrics[k], t) ==>
              GetNextLyric(lyrics, t).value.startMs <= lyrics[k].startMs
  {
    var n := GetNextLyric(lyrics, t).value;
    var i :| 0 <= i < |lyrics| && lyrics[i] == n && IsUpcoming(lyrics[i], t)
              && forall k :: 0 <= k < i ==> !IsUpcoming(lyrics[k], t);
    forall k | 0 <= k < |lyrics| && IsUpcoming(lyrics[k], t)
      ensures n.startMs <= lyrics[k].startMs
    {
      assert i <= k;
    }
  }

  /** Whatever is on screen started before the next caption does; the
      next caption is never the one showing. */
  lemma CurrentBeforeNext(lyrics: seq<LyricLine>, t: real)
    requires GetCurrentLyric(lyrics, t).Some? && GetNextLyric(lyrics, t).Some?
    ensures GetCurrentLyric(lyrics, t).value.startMs < GetNextLyric(lyrics, t).value.startMs
    ensures GetCurrentLyric(lyrics, t) != GetNextLyric(lyrics, t)
  {
    var c := GetCurrentLyric(lyrics, t).value;
    var n := GetNextLyric(lyrics, t).value;
    assert IsShowing(c, t) && IsUpcoming(n, t);
    assert Seconds(c.startMs) < Seconds(n.startMs);
  }

  /** A moment exactly on the boundary shared by two adjacent captions
      shows the earlier one, and neither is the next caption. */
  lemma SharedBoundary(a: LyricLine, b: LyricLine)
    requires a.endMs == b.startMs && a.startMs <= a.endMs <= b.endMs
    ensures GetCurrentLyric([a, b], Seconds(a.endMs)) == Some(a)
    ensures GetNextLyric([a, b], Seconds(a.endMs)) == None
  {
    assert IsShowing([a, b][0], Seconds(a.endMs));
  }
}
