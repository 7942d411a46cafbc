/** The speaker assignment form: a list of (session, speaker) pairs, each
    required, and no pair given twice. */
module AssignmentForm {
  import opened Wrappers
  import Lists

  datatype AssignmentData = AssignmentData(id: string, sessionId: string, speakerId: string)

  /** The two selects of an assignment. */
  datatype AssignmentField = SessionIdField | SpeakerIdField

  /** Where an assignment's error is kept: under a select, or under `global` for
      a repeated pair. */
  datatype ErrorKey = FieldKey(field: AssignmentField) | PairKey

  /** An entry of `dataToSend`. */
  datatype AssignmentPayload = AssignmentPayload(sessionId: string, speakerId: string)

  const SelectSessionMessage := "Seleccione una sesión"
  const SelectSpeakerMessage := "Seleccione un speaker"
  const DuplicateMessage := "Esta combinación ya está asignada"

  function AssignmentId(a: AssignmentData): string
  {
    a.id
  }

  function Pair(a: AssignmentData): (string, string)
  {
    (a.sessionId, a.speakerId)
  }

  /** `assignments.filter(a => same session and same speaker).length`. */
  function CountPair(s: seq<AssignmentData>, p: (string, string)): nat
  {
    if s == [] then 0 else (if Pair(s[0]) == p then 1 else 0) + CountPair(s[1..], p)
  }

  /** The count is positive exactly when some assignment has the pair. */
  lemma {:induction false} CountPairPositive(s: seq<AssignmentData>, p: (string, string))
    ensures CountPair(s, p) > 0 <==> exists j :: 0 <= j < |s| && Pair(s[j]) == p
  {
    if s != [] {
      CountPairPositive(s[1..], p);
      if Pair(s[0]) != p && CountPair(s, p) == 0 {
        forall j | 0 <= j < |s| ensures Pair(s[j]) != p {
          if j > 0 { assert s[j] == s[1..][j - 1]; }
        }
      }
      if exists j :: 0 < j < |s| && Pair(s[j]) == p {
        var j :| 0 < j < |s| && Pair(s[j]) == p;
        assert s[1..][j - 1] == s[j];
      }
    }
  }

  /** The pair of `s[i]` counts more than once exactly when another assignment
      has it too. */
  lemma {:induction false} DuplicateIffOther(s: seq<AssignmentData>, i: nat)
    requires i < |s|
    ensures CountPair(s, Pair(s[i])) > 1 <==> exists j :: 0 <= j < |s| && j != i && Pair(s[j]) == Pair(s[i])
  {
    var p := Pair(s[i]);
    if i == 0 {
      CountPairPositive(s[1..], p);
      if exists j :: 0 <= j < |s| && j != i && Pair(s[j]) == p {
        var j :| 0 <= j < |s| && j != i && Pair(s[j]) == p;
        assert s[1..][j - 1] == s[j];
      }
      if CountPair(s[1..], p) > 0 {
        var j :| 0 <= j < |s[1..]| && Pair(s[1..][j]) == p;
        assert s[j + 1] == s[1..][j];
      }
    } else {
      assert s[1..][i - 1] == s[i];
      DuplicateIffOther(s[1..], i - 1);
      if Pair(s[0]) == p {
        CountPairPositive(s[1..], p);
      } else {
        if exists j :: 0 <= j < |s| && j != i && Pair(s[j]) == p {
          var j :| 0 <= j < |s| && j != i && Pair(s[j]) == p;
          assert s[1..][j - 1] == s[j];
        }
        if exists j :: 0 <= j < |s[1..]| && j != i - 1 && Pair(s[1..][j]) == p {
          var j :| 0 <= j < |s[1..]| && j != i - 1 && Pair(s[1..][j]) == p;
          assert s[j + 1] == s[1..][j];
        }
      }
    }
  }

  /** The errors of one assignment within the whole list: each select is
      required, and a pair with both parts chosen that appears more than once is
      flagged. */
  function AssignmentErrors(all: seq<AssignmentData>, a: AssignmentData): (e: map<ErrorKey, string>)
    ensures FieldKey(SessionIdField) in e <==> a.sessionId == []
    ensures FieldKey(SpeakerIdField) in e <==> a.speakerId == []
    ensures PairKey in e <==> a.sessionId != [] && a.speakerId != [] && CountPair(all, Pair(a)) > 1
    ensures FieldKey(SessionIdField) in e ==> e[FieldKey(SessionIdField)] == SelectSessionMessage
    ensures FieldKey(SpeakerIdField) in e ==> e[FieldKey(SpeakerIdField)] == SelectSpeakerMessage
    ensures PairKey in e ==> e[PairKey] == DuplicateMessage
  {
    var e0: map<ErrorKey, string> := map[];
    var e1 := if a.sessionId == [] then e0[FieldKey(SessionIdField) := SelectSessionMessage] else e0;
    var e2 := if a.speakerId == [] then e1[FieldKey(SpeakerIdField) := SelectSpeakerMessage] else e1;
    var duplicate := CountPair(all, Pair(a)) > 1;
    if duplicate && a.sessionId != [] && a.speakerId != [] then e2[PairKey := DuplicateMessage] else e2
  }

  /** The rule for one assignment, with the list it belongs to fixed. */
  function ErrorsIn(all: seq<AssignmentData>): AssignmentData -> map<ErrorKey, string>
  {
    a => AssignmentErrors(all, a)
  }

  /** The dictionary `validateForm` builds. */
  function ErrorsOf(all: seq<AssignmentData>): map<string, map<ErrorKey, string>>
  {
    Lists.ErrorsByKey(all, AssignmentId, ErrorsIn(all))
  }

  /** `s[i]` is flagged as a repeated pair exactly when both its selects are
      chosen and some other assignment has the same pair. */
  lemma PairFlagged(all: seq<AssignmentData>, i: nat)
    requires i < |all|
    ensures PairKey in AssignmentErrors(all, all[i]) <==>
              all[i].sessionId != [] && all[i].speakerId != [] &&
              exists j :: 0 <= j < |all| && j != i && Pair(all[j]) == Pair(all[i])
  {
    DuplicateIffOther(all, i);
  }

  /** Every member of a repeated pair is flagged, not only the later ones. */
  lemma DuplicateGroupFlagged(all: seq<AssignmentData>, i: nat, j: nat)
    requires i < |all| && j < |all| && i != j && Pair(all[i]) == Pair(all[j])
    requires all[i].sessionId != [] && all[i].speakerId != []
    ensures PairKey in AssignmentErrors(all, all[i]) && PairKey in AssignmentErrors(all, all[j])
  {
    PairFlagged(all, i);
    PairFlagged(all, j);
  }

  /** The list passes exactly when every pair is complete and no two
      assignments share a pair. */
  lemma ValidIffUniquePairs(all: seq<AssignmentData>)
    ensures (forall k :: 0 <= k < |all| ==> AssignmentErrors(all, all[k]) == map[]) <==>
            (forall k :: 0 <= k < |all| ==> all[k].sessionId != [] && all[k].speakerId != []) &&
            (forall i, j :: 0 <= i < |all| && 0 <= j < |all| && i != j ==> Pair(all[i]) != Pair(all[j]))
  {
    if forall k :: 0 <= k < |all| ==> AssignmentErrors(all, all[k]) == map[] {
      forall i, j | 0 <= i < |all| && 0 <= j < |all| && i != j ensures Pair(all[i]) != Pair(all[j]) {
        assert FieldKey(SessionIdField) !in AssignmentErrors(all, all[i]);
        assert FieldKey(SpeakerIdField) !in AssignmentErrors(all, all[i]);
        assert PairKey !in AssignmentErrors(all, all[i]);
        PairFlagged(all, i);
      }
    }
    if (forall k :: 0 <= k < |all| ==> all[k].sessionId != [] && all[k].speakerId != []) &&
       (forall i, j :: 0 <= i < |all| && 0 <= j < |all| && i != j ==> Pair(all[i]) != Pair(all[j])) {
      forall k | 0 <= k < |all| ensures AssignmentErrors(all, all[k]) == map[] {
        PairFlagged(all, k);
        assert AssignmentErrors(all, all[k]).Keys == {};
      }
    }
  }

  /** With distinct ids, the dictionary holds an assignment's own errors under
      its id when it has any. */
  lemma ErrorsOfDistinct(all: seq<AssignmentData>, k: nat)
    requires k < |all|
    requires forall i, j :: 0 <= i < j < |all| ==> all[i].id != all[j].id
    ensures all[k].id in ErrorsOf(all) <==> AssignmentErrors(all, all[k]) != map[]
    ensures all[k].id in ErrorsOf(all) ==> ErrorsOf(all)[all[k].id] == AssignmentErrors(all, all[k])
  {
    assert ErrorsIn(all)(all[k]) == AssignmentErrors(all, all[k]);
    if AssignmentErrors(all, all[k]) != map[] {
      Lists.ErrorsByDistinctKey(all, AssignmentId, ErrorsIn(all), k);
    } else {
      forall j | 0 <= j < |all| && all[j].id == all[k].id ensures ErrorsIn(all)(all[j]) == map[] {
        assert j == k;
      }
    }
  }

  /** The empty assignment of `initialAssignment` and `addNewAssignment`
      (`freshId` stands for `Date.now().toString()`). */
  function EmptyAssignment(freshId: string): AssignmentData
  {
    AssignmentData(freshId, "", "")
  }

  /** A new assignment, among any others, fails on both selects with their
      messages and is never a duplicate. */
  lemma EmptyAssignmentErrors(all: seq<AssignmentData>, freshId: string)
    ensures AssignmentErrors(all, EmptyAssignment(freshId)) ==
            map[FieldKey(SessionIdField) := SelectSessionMessage, FieldKey(SpeakerIdField) := SelectSpeakerMessage]
  {
  }

  function WithField(a: AssignmentData, f: AssignmentField, value: string): AssignmentData
  {
    match f
    case SessionIdField => a.(sessionId := value)
    case SpeakerIdField => a.(speakerId := value)
  }

  function PayloadOf(a: AssignmentData): AssignmentPayload
  {
    AssignmentPayload(a.sessionId, a.speakerId)
  }

  /** `dataToSend`: the pairs in the order of the list. */
  function PayloadsOf(s: seq<AssignmentData>): (p: seq<AssignmentPayload>)
    ensures |p| == |s| && forall k :: 0 <= k < |s| ==> p[k] == AssignmentPayload(s[k].sessionId, s[k].speakerId)
  {
    if s == [] then [] else [PayloadOf(s[0])] + PayloadsOf(s[1..])
  }

  class AssignmentList {
    var assignments: seq<AssignmentData>
    /** `errors.assignments`; the top-level `global` is never set. */
    var errors: map<string, map<ErrorKey, string>>

    /** One empty assignment (`initialAssignment`) and no errors. */
    constructor(initialId: string)
      ensures assignments == [EmptyAssignment(initialId)] && errors == map[]
    {
      assignments := [EmptyAssignment(initialId)];
      errors := map[];
    }

    /** `handleAssignmentChange`: the select is set on the assignments with the
        id, and only that select's pending error is cleared; a repeated-pair error
        stays until the next validation. */
    method HandleAssignmentChange(id: string, f: AssignmentField, value: string)
      modifies this`assignments, this`errors
      ensures |assignments| == |old(assignments)|
      ensures forall k :: 0 <= k < |assignments| ==>
                assignments[k] == if old(assignments)[k].id == id then WithField(old(assignments)[k], f, value) else old(assignments)[k]
      ensures errors == if id in old(errors) && FieldKey(f) in old(errors)[id]
                        then old(errors)[id := old(errors)[id] - {FieldKey(f)}] else old(errors)
    {
      assignments := Lists.ReplaceWhere(assignments, id, AssignmentId, (a: AssignmentData) => WithField(a, f, value));
      if id in errors && FieldKey(f) in errors[id] {
        errors := errors[id := errors[id] - {FieldKey(f)}];
      }
    }

    /** `addNewAssignment`. */
    method AddNewAssignment(freshId: string)
      modifies this`assignments
      ensures assignments == old(assignments) + [EmptyAssignment(freshId)]
    {
      assignments := assignments + [EmptyAssignment(freshId)];
    }

    /** `removeAssignment`: nothing happens to a list of one; otherwise the
        assignments with the id and their error record go. */
    method RemoveAssignment(id: string)
      modifies this`assignments, this`errors
      ensures |old(assignments)| <= 1 ==> assignments == old(assignments) && errors == old(errors)
      ensures |old(assignments)| > 1 ==>
                assignments == Lists.Without(old(assignments), id, AssignmentId) && errors == old(errors) - {id}
    {
      if |assignments| > 1 {
        assignments := Lists.Without(assignments, id, AssignmentId);
        errors := errors - {id};
      }
    }

    /** `validateForm`: the `forEach` fills the dictionary with the assignments
        that have errors and raises the flag; the result says that none has any. */
    method ValidateForm() returns (ok: bool)
      modifies this`errors
      ensures errors == ErrorsOf(assignments)
      ensures ok <==> forall k :: 0 <= k < |assignments| ==> AssignmentErrors(assignments, assignments[k]) == map[]
      ensures ok <==> errors == map[]
    {
      var all := assignments;
      var assignmentErrors: map<string, map<ErrorKey, string>> := map[];
      var hasErrors := false;
      var i := 0;
      while i < |all|
        invariant 0 <= i <= |all|
        invariant assignmentErrors == Lists.ErrorsByKey(all[..i], AssignmentId, ErrorsIn(all))
        invariant hasErrors <==> assignmentErrors != map[]
      {
        var assignment := all[i];
        var assignmentError := AssignmentErrors(all, assignment);
        Lists.ErrorsByKeyStep(all, i, AssignmentId, ErrorsIn(all));
        if assignmentError != map[] {
          hasErrors := true;
          assignmentErrors := assignmentErrors[assignment.id := assignmentError];
          assert assignment.id in assignmentErrors;
        }
        i := i + 1;
      }
      assert all[..i] == all;
      Lists.ErrorsByKeyEmpty(all, AssignmentId, ErrorsIn(all));
      errors := assignmentErrors;
      ok := !hasErrors;
    }

    /** `handleSubmit`: a valid form prepares the pairs (no call is made). */
    method HandleSubmit() returns (prepared: Option<seq<AssignmentPayload>>)
      modifies this`errors
      ensures errors == ErrorsOf(assignments)
      ensures prepared.Some? <==> errors == map[]
      ensures prepared.Some? ==> prepared.value == PayloadsOf(assignments)
    {
      var ok := ValidateForm();
      prepared := if ok then Some(PayloadsOf(assignments)) else None;
    }

    /** `resetForm`: back to one empty assignment and no errors. */
    method ResetForm(initialId: string)
      modifies this`assignments, this`errors
      ensures assignments == [EmptyAssignment(initialId)] && errors == map[]
    {
      assignments := [EmptyAssignment(initialId)];
      errors := map[];
    }
  }
}
