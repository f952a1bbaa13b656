/**
 * The timeline store of the editor core: clip records and the filter that
 * `removeClip` applies to them.
 */
module Clips {

  /** The `type` field of a clip record. */
  datatype ClipKind = VideoClip | AudioClip | ImageClip

  /** A clip record as the caller passes it to `addClip`: everything but the id. */
  datatype ClipDraft = ClipDraft(startTime: real, endTime: real, source: string, kind: ClipKind)

  /** A clip record as it is stored on the timeline. */
  datatype TimelineClip = TimelineClip(id: string, startTime: real, endTime: real, source: string, kind: ClipKind)

  /** The fields of a stored record other than its id. */
  function Draft(c: TimelineClip): ClipDraft
  {
    ClipDraft(c.startTime, c.endTime, c.source, c.kind)
  }

  /** The record `{ ...clip, id }`: the draft's fields with the given id. */
  function WithId(draft: ClipDraft, id: string): (c: TimelineClip)
    ensures c.id == id && Draft(c) == draft
  {
    TimelineClip(id, draft.startTime, draft.endTime, draft.source, draft.kind)
  }

  /** Every stored record is its own draft given its own id back. */
  lemma DraftWithId(c: TimelineClip)
    ensures WithId(Draft(c), c.id) == c
  {
  }

  /** `clips.filter(clip => clip.id !== id)`: the records whose id differs from `id`, in order. */
  function RemoveId(clips: seq<TimelineClip>, id: string): (r: seq<TimelineClip>)
    ensures |r| <= |clips|
    ensures forall c :: c in r ==> c in clips && c.id != id
  {
    if clips == [] then []
    else if clips[0].id == id then RemoveId(clips[1..], id)
    else [clips[0]] + RemoveId(clips[1..], id)
  }

  /** A record survives the filter exactly when it was there and its id differs. */
  lemma {:induction false} RemoveIdMembers(clips: seq<TimelineClip>, id: string, c: TimelineClip)
    ensures c in RemoveId(clips, id) <==> c in clips && c.id != id
  {
    if clips != [] {
      RemoveIdMembers(clips[1..], id, c);
      assert clips == [clips[0]] + clips[1..];
    }
  }

  /** Every record with `id` is dropped and every other one keeps its multiplicity. */
  lemma {:induction false} RemoveIdMultiplicity(clips: seq<TimelineClip>, id: string, c: TimelineClip)
    ensures multiset(RemoveId(clips, id))[c] == if c.id == id then 0 else multiset(clips)[c]
  {
    if clips != [] {
      var rest := clips[1..];
      RemoveIdMultiplicity(rest, id, c);
      assert clips == [clips[0]] + rest;
      assert multiset(clips) == multiset([clips[0]]) + multiset(rest);
      if clips[0].id != id {
        assert RemoveId(clips, id) == [clips[0]] + RemoveId(rest, id);
        assert multiset(RemoveId(clips, id)) == multiset([clips[0]]) + multiset(RemoveId(rest, id));
      }
    }
  }

  /** The filter works record by record, so it keeps the relative order of what it keeps. */
  lemma {:induction false} RemoveIdAppend(a: seq<TimelineClip>, b: seq<TimelineClip>, id: string)
    ensures RemoveId(a + b, id) == RemoveId(a, id) + RemoveId(b, id)
  {
    if a == [] {
      assert a + b == b;
    } else {
      assert (a + b)[0] == a[0];
      assert (a + b)[1..] == a[1..] + b;
      RemoveIdAppend(a[1..], b, id);
    }
  }

  /** Removing an id that no record carries changes nothing. */
  lemma {:induction false} RemoveIdAbsent(clips: seq<TimelineClip>, id: string)
    requires forall c :: c in clips ==> c.id != id
    ensures RemoveId(clips, id) == clips
  {
    if clips != [] {
      assert clips[0] in clips;
      forall c | c in clips[1..] ensures c.id != id {
        assert c in clips;
      }
      RemoveIdAbsent(clips[1..], id);
      assert clips == [clips[0]] + clips[1..];
    }
  }

  /** Removing the same id twice is the same as removing it once. */
  lemma RemoveIdIdempotent(clips: seq<TimelineClip>, id: string)
    ensures RemoveId(RemoveId(clips, id), id) == RemoveId(clips, id)
  {
    RemoveIdAbsent(RemoveId(clips, id), id);
  }

  /**
   * Appending a record under an id no earlier record carries and then removing
   * that id gives back the timeline as it was.
   */
  lemma AddThenRemove(clips: seq<TimelineClip>, draft: ClipDraft, id: string)
    requires forall c :: c in clips ==> c.id != id
    ensures RemoveId(clips + [WithId(draft, id)], id) == clips
  {
    RemoveIdAppend(clips, [WithId(draft, id)], id);
    RemoveIdAbsent(clips, id);
    assert RemoveId([WithId(draft, id)], id) == [];
  }
}
