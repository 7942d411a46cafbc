/** The admin speaker list: speakers loaded from the backend or added as drafts,
    edited in place and created, updated or deleted one at a time. */
module AdminSpeakerForm {
  import opened Wrappers
  import JsText
  import Lists
  import opened SpeakerRules

  datatype Speaker = Speaker(
    id: string, backendId: Option<string>, fullName: string, email: string, bio: string, isDirty: bool)

  /** A stored speaker as `getSpeakersAll` lists it. */
  datatype SpeakerResponse = SpeakerResponse(id: string, fullName: string, email: string, bio: string)

  /** The body of `updatepeakerService`: the backend id and the trimmed texts. */
  datatype UpdatePayload = UpdatePayload(id: string, text: SpeakerText)

  /** What a service call did: answered with its `success` flag, or threw. */
  datatype Reply = Answered(success: bool) | Threw

  function SpeakerId(s: Speaker): string
  {
    s.id
  }

  function TextOf(s: Speaker): SpeakerText
  {
    SpeakerText(s.fullName, s.email, s.bio)
  }

  /** `createNewEmptySpeaker` (`freshId` stands for `Date.now().toString()`). */
  function EmptySpeaker(freshId: string): Speaker
  {
    Speaker(freshId, None, "", "", "", false)
  }

  /** A new speaker fails every rule with its "required" message. */
  lemma EmptySpeakerErrors(freshId: string)
    ensures ValidateSpeaker(TextOf(EmptySpeaker(freshId))) ==
            map[FullNameField := NameRequiredMessage, EmailField := EmailRequiredMessage, BioField := BioRequiredMessage]
  {
    assert JsText.Trim("") == [];
  }

  /** `{ ...speaker, [field]: value }`. */
  function WithField(s: Speaker, f: SpeakerField, value: string): Speaker
  {
    match f
    case FullNameField => s.(fullName := value)
    case EmailField => s.(email := value)
    case BioField => s.(bio := value)
  }

  /** A speaker after an input's change: the field takes the value and the speaker
      becomes dirty. */
  function Edited(s: Speaker, f: SpeakerField, value: string): Speaker
  {
    WithField(s, f, value).(isDirty := true)
  }

  /** A change to one field leaves the rules of the other two as they were. */
  lemma ChangeKeepsOtherRules(s: Speaker, f: SpeakerField, value: string, g: SpeakerField)
    requires g != f
    ensures (g in ValidateSpeaker(TextOf(WithField(s, f, value)))) == (g in ValidateSpeaker(TextOf(s)))
    ensures g in ValidateSpeaker(TextOf(s)) ==>
              ValidateSpeaker(TextOf(WithField(s, f, value)))[g] == ValidateSpeaker(TextOf(s))[g]
  {
  }

  /** `speakers.find(s => s.id === id)`. */
  function Find(speakers: seq<Speaker>, id: string): (r: Option<Speaker>)
    ensures r.None? <==> forall s :: s in speakers ==> s.id != id
    ensures r.Some? ==> exists i :: 0 <= i < |speakers| && speakers[i] == r.value && r.value.id == id &&
                                   forall j :: 0 <= j < i ==> speakers[j].id != id
  {
    match Lists.FindIndex(speakers, id, SpeakerId)
    case None => None
    case Some(i) => Some(speakers[i])
  }

  /** `speaker.backendId` is truthy. */
  predicate HasBackendId(s: Speaker)
  {
    s.backendId.Some? && s.backendId.value != ""
  }

  predicate DistinctIds(speakers: seq<Speaker>)
  {
    forall i, j :: 0 <= i < j < |speakers| ==> speakers[i].id != speakers[j].id
  }

  class SpeakerList {
    var speakers: seq<Speaker>
    var errors: map<string, map<SpeakerField, string>>
    /** The counter whose change makes the form fetch the speakers again. */
    var reloadSpeakers: nat

    /** No speakers and no errors until the first load. */
    constructor()
      ensures speakers == [] && errors == map[] && reloadSpeakers == 0
    {
      speakers := [];
      errors := map[];
      reloadSpeakers := 0;
    }

    /** The answer of `getSpeakersAll` replaces the list: each stored speaker
        keeps its texts, has its own id as `backendId` and is clean. */
    method LoadSpeakers(stored: seq<SpeakerResponse>)
      modifies this`speakers
      ensures |speakers| == |stored|
      ensures forall i :: 0 <= i < |stored| ==>
                speakers[i] == Speaker(stored[i].id, Some(stored[i].id), stored[i].fullName, stored[i].email, stored[i].bio, false)
    {
      var loaded: seq<Speaker> := [];
      var i := 0;
      while i < |stored|
        invariant 0 <= i <= |stored|
        invariant |loaded| == i
        invariant forall j :: 0 <= j < i ==>
                    loaded[j] == Speaker(stored[j].id, Some(stored[j].id), stored[j].fullName, stored[j].email, stored[j].bio, false)
      {
        var r := stored[i];
        loaded := loaded + [Speaker(r.id, Some(r.id), r.fullName, r.email, r.bio, false)];
        i := i + 1;
      }
      speakers := loaded;
    }

    /** `addNewSpeaker`. */
    method AddNewSpeaker(freshId: string)
      modifies this`speakers
      ensures speakers == old(speakers) + [EmptySpeaker(freshId)]
    {
      speakers := speakers + [EmptySpeaker(freshId)];
    }

    /** `removeSpeaker`: nothing happens to a list of one; otherwise every speaker
        with the id and its error record go. With distinct ids one speaker stays. */
    method RemoveSpeaker(id: string)
      modifies this`speakers, this`errors
      ensures |old(speakers)| <= 1 ==> speakers == old(speakers) && errors == old(errors)
      ensures |old(speakers)| > 1 ==>
                speakers == Lists.Without(old(speakers), id, SpeakerId) && errors == old(errors) - {id}
      ensures DistinctIds(old(speakers)) && |old(speakers)| >= 1 ==> |speakers| >= 1
    {
      if |speakers| > 1 {
        if DistinctIds(speakers) {
          Lists.WithoutDistinct(speakers, id, SpeakerId);
        }
        speakers := Lists.Without(speakers, id, SpeakerId);
        errors := errors - {id};
      }
    }

    /** `handleSpeakerChange`: the field is set on the speakers with the id, which
        become dirty, and only that field's pending error of that speaker is
        cleared. */
    method HandleSpeakerChange(id: string, f: SpeakerField, value: string)
      modifies this`speakers, this`errors
      ensures |speakers| == |old(speakers)|
      ensures forall k :: 0 <= k < |speakers| ==>
                speakers[k] == if old(speakers)[k].id == id then Edited(old(speakers)[k], f, value) else old(speakers)[k]
      ensures errors == if id in old(errors) && f in old(errors)[id]
                        then old(errors)[id := old(errors)[id] - {f}] else old(errors)
    {
      speakers := Lists.ReplaceWhere(speakers, id, SpeakerId, (s: Speaker) => Edited(s, f, value));
      if id in errors && f in errors[id] {
        errors := errors[id := errors[id] - {f}];
      }
    }

    /** `createSpeaker`. An unknown id does nothing; an invalid speaker gets its
        error record and nothing is sent; otherwise the trimmed texts are sent, and
        unless the call throws the speakers with the id get "backend-speaker-" and
        the time stamp as `backendId` and become clean. */
    method CreateSpeaker(id: string, threw: bool, stamp: string) returns (sent: Option<SpeakerText>)
      modifies this`speakers, this`errors
      ensures Find(old(speakers), id).None? ==> sent.None? && speakers == old(speakers) && errors == old(errors)
      ensures Find(old(speakers), id).Some? && ValidateSpeaker(TextOf(Find(old(speakers), id).value)) != map[] ==>
                sent.None? && speakers == old(speakers) &&
                errors == old(errors)[id := ValidateSpeaker(TextOf(Find(old(speakers), id).value))]
      ensures Find(old(speakers), id).Some? && ValidateSpeaker(TextOf(Find(old(speakers), id).value)) == map[] ==>
                sent == Some(Trimmed(TextOf(Find(old(speakers), id).value))) && errors == old(errors)
      ensures |speakers| == |old(speakers)|
      ensures forall k :: 0 <= k < |speakers| ==>
                speakers[k] == if sent.Some? && !threw && old(speakers)[k].id == id
                               then old(speakers)[k].(backendId := Some("backend-speaker-" + stamp), isDirty := false)
                               else old(speakers)[k]
    {
      var found := Find(speakers, id);
      if found.None? {
        return None;
      }
      var speakerErrors := ValidateSpeaker(TextOf(found.value));
      if speakerErrors != map[] {
        errors := errors[id := speakerErrors];
        return None;
      }
      sent := Some(Trimmed(TextOf(found.value)));
      if !threw {
        speakers := Lists.ReplaceWhere(speakers, id, SpeakerId,
                      (s: Speaker) => s.(backendId := Some("backend-speaker-" + stamp), isDirty := false));
      }
    }

    /** `updateSpeaker`. A speaker that is unknown or has no `backendId` changes
        nothing; an invalid one gets its error record; a valid one is sent with its
        backend id and trimmed texts, and the list is fetched again unless the call
        throws. The local records are not touched. */
    method UpdateSpeaker(id: string, threw: bool) returns (sent: Option<UpdatePayload>)
      modifies this`errors, this`reloadSpeakers
      ensures Find(speakers, id).None? || !HasBackendId(Find(speakers, id).value) ==>
                sent.None? && errors == old(errors) && reloadSpeakers == old(reloadSpeakers)
      ensures Find(speakers, id).Some? && HasBackendId(Find(speakers, id).value) &&
              ValidateSpeaker(TextOf(Find(speakers, id).value)) != map[] ==>
                sent.None? && reloadSpeakers == old(reloadSpeakers) &&
                errors == old(errors)[id := ValidateSpeaker(TextOf(Find(speakers, id).value))]
      ensures Find(speakers, id).Some? && HasBackendId(Find(speakers, id).value) &&
              ValidateSpeaker(TextOf(Find(speakers, id).value)) == map[] ==>
                errors == old(errors) &&
                sent == Some(UpdatePayload(Find(speakers, id).value.backendId.value, Trimmed(TextOf(Find(speakers, id).value)))) &&
                reloadSpeakers == if threw then old(reloadSpeakers) else old(reloadSpeakers) + 1
    {
      var found := Find(speakers, id);
      if found.None? || !HasBackendId(found.value) {
        return None;
      }
      var speakerErrors := ValidateSpeaker(TextOf(found.value));
      if speakerErrors != map[] {
        errors := errors[id := speakerErrors];
        return None;
      }
      sent := Some(UpdatePayload(found.value.backendId.value, Trimmed(TextOf(found.value))));
      if !threw {
        reloadSpeakers := reloadSpeakers + 1;
      }
    }

    /** `deleteSpeaker`. An unknown id does nothing; a draft goes through
        `removeSpeaker` with no call; a stored speaker is sent to the service by its
        `backendId`, and only a successful answer changes anything, by making the
        list fetch again (the record itself stays until then). */
    method DeleteSpeaker(id: string, reply: Reply) returns (called: Option<string>)
      modifies this`speakers, this`errors, this`reloadSpeakers
      ensures Find(old(speakers), id).None? ==>
                called.None? && speakers == old(speakers) && errors == old(errors) && reloadSpeakers == old(reloadSpeakers)
      ensures Find(old(speakers), id).Some? && !HasBackendId(Find(old(speakers), id).value) ==>
                called.None? && reloadSpeakers == old(reloadSpeakers) &&
                (|old(speakers)| <= 1 ==> speakers == old(speakers) && errors == old(errors)) &&
                (|old(speakers)| > 1 ==> speakers == Lists.Without(old(speakers), id, SpeakerId) && errors == old(errors) - {id})
      ensures Find(old(speakers), id).Some? && HasBackendId(Find(old(speakers), id).value) ==>
                called == Find(old(speakers), id).value.backendId && speakers == old(speakers) && errors == old(errors) &&
                reloadSpeakers == if reply == Answered(true) then old(reloadSpeakers) + 1 else old(reloadSpeakers)
    {
      var found := Find(speakers, id);
      if found.None? {
        return None;
      }
      if !HasBackendId(found.value) {
        RemoveSpeaker(id);
        return None;
      }
      called := found.value.backendId;
      if reply == Answered(true) {
        reloadSpeakers := reloadSpeakers + 1;
      }
    }
  }
}
