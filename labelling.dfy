/** The per-photo rule of the script's main loop: a photo whose name is a
    decimal number gets an "Even Number" or "Odd Number" label unless it
    already carries that label, and every photo is then approved. The HTTP
    calls that carry out the decisions are modelled as the list of actions
    the loop would issue, in order. */
module Labelling {

  const EvenNumber: string := "Even Number"
  const OddNumber: string := "Odd Number"

  /** The JSON body posted to the label endpoint. */
  datatype LabelRequest = LabelRequest(name: string, priority: int, favorite: bool, description: string)

  const EvenLabel: LabelRequest :=
    LabelRequest(EvenNumber, 1, false, "This photo has an even number as its name.")
  const OddLabel: LabelRequest :=
    LabelRequest(OddNumber, 1, false, "This photo has an odd number as its name.")

  /** What the rule does with one photo before approving it. */
  datatype Decision = AddEven | AddOdd | NoLabel

  predicate IsDigit(c: char) {
    '0' <= c <= '9'
  }

  predicate AllDigits(s: string) {
    forall i | 0 <= i < |s| :: IsDigit(s[i])
  }

  /** `s.isdigit()`, restricted to the ASCII digits: true for a non-empty
      string of digits only. */
  predicate IsDigitString(s: string) {
    |s| > 0 && AllDigits(s)
  }

  /** `int(s)` on a string of ASCII digits (leading zeros allowed). */
  function DecimalValue(s: string): (n: nat)
    requires AllDigits(s)
  {
    if s == [] then 0
    else 10 * DecimalValue(s[..|s| - 1]) + (s[|s| - 1] - '0') as int
  }

  /** The `if`/`elif` of the main loop, given the photo's name and the names
      of the labels it already carries. */
  function Decide(name: string, labels: seq<string>): (d: Decision)
    ensures d == AddEven ==> IsDigitString(name) && EvenNumber !in labels
    ensures d == AddOdd ==> IsDigitString(name) && OddNumber !in labels
  {
    if IsDigitString(name) && DecimalValue(name) % 2 == 0 && EvenNumber !in labels then AddEven
    else if IsDigitString(name) && DecimalValue(name) % 2 != 0 && OddNumber !in labels then AddOdd
    else NoLabel
  }

  /** The label posted for a decision that adds one. */
  function LabelFor(d: Decision): (l: LabelRequest)
    requires d != NoLabel
    ensures l.priority == 1 && !l.favorite
    ensures l.name == (if d == AddEven then EvenNumber else OddNumber)
  {
    if d == AddEven then EvenLabel else OddLabel
  }

  /** The parity of a decimal numeral is the parity of its last digit. */
  lemma {:induction false} ParityOfLastDigit(s: string)
    requires IsDigitString(s)
    ensures DecimalValue(s) % 2 == (s[|s| - 1] - '0') as int % 2
  {
    var x, d := DecimalValue(s[..|s| - 1]), (s[|s| - 1] - '0') as int;
    assert DecimalValue(s) == 2 * (5 * x) + d;
  }

  /** An even last digit. */
  predicate EndsInEvenDigit(s: string)
    requires |s| > 0
  {
    s[|s| - 1] in {'0', '2', '4', '6', '8'}
  }

  /** The rule restated without arithmetic on the whole number: a digit
      string ending in an even digit gets "Even Number" unless it already has
      it, one ending in an odd digit gets "Odd Number" unless it already has
      it, and any other name gets nothing. */
  lemma DecideByLastDigit(name: string, labels: seq<string>)
    ensures Decide(name, labels) ==
            if !IsDigitString(name) then NoLabel
            else if EndsInEvenDigit(name) then (if EvenNumber in labels then NoLabel else AddEven)
            else (if OddNumber in labels then NoLabel else AddOdd)
  {
    if IsDigitString(name) {
      ParityOfLastDigit(name);
    }
  }

  /** Running the rule again once its label has been added adds nothing. */
  lemma DecideIsIdempotent(name: string, labels: seq<string>)
    requires Decide(name, labels) != NoLabel
    ensures Decide(name, labels + [LabelFor(Decide(name, labels)).name]) == NoLabel
  {
  }

  /** Extra existing labels can only suppress a label, never change which
      one is added. */
  lemma MoreLabelsOnlySuppress(name: string, labels: seq<string>, more: seq<string>)
    requires forall l | l in labels :: l in more
    requires Decide(name, more) != NoLabel
    ensures Decide(name, labels) == Decide(name, more)
  {
  }

  // ----------------------------------------------------------------------
  // The main loop
  // ----------------------------------------------------------------------

  /** What the loop reads of one detailed photo: its UID (used in the request
      paths), its `Name`, and the `Label.Name` of each of its labels. */
  datatype PhotoView = PhotoView(uid: string, name: string, labelNames: seq<string>)

  /** A request the loop issues: `add_label(photo, ...)` or `approve_photo(photo)`. */
  datatype Action = AddLabel(uid: string, request: LabelRequest) | Approve(uid: string)

  /** The requests issued for one photo: at most one label, then the approval. */
  function ActionsFor(p: PhotoView): (acts: seq<Action>)
    ensures 1 <= |acts| <= 2 && acts[|acts| - 1] == Approve(p.uid)
    ensures |acts| == 2 <==> Decide(p.name, p.labelNames) != NoLabel
    ensures |acts| == 2 ==> acts[0] == AddLabel(p.uid, LabelFor(Decide(p.name, p.labelNames)))
  {
    match Decide(p.name, p.labelNames)
    case AddEven => [AddLabel(p.uid, EvenLabel), Approve(p.uid)]
    case AddOdd => [AddLabel(p.uid, OddLabel), Approve(p.uid)]
    case NoLabel => [Approve(p.uid)]
  }

  /** The requests issued for a sequence of photos, photo after photo: at
      least one per photo (its approval), at most two. */
  function Plan(photos: seq<PhotoView>): (acts: seq<Action>)
    ensures |photos| <= |acts| <= 2 * |photos|
  {
    if photos == [] then []
    else Plan(photos[..|photos| - 1]) + ActionsFor(photos[|photos| - 1])
  }

  /** `for photo in detailed_photos: ...`, recording the requests it issues. */
  method LabelAndApprove(photos: seq<PhotoView>) returns (actions: seq<Action>)
    ensures actions == Plan(photos)
  {
    actions := [];
    for i := 0 to |photos|
      invariant actions == Plan(photos[..i])
    {
      var photo := photos[i];
      var d := Decide(photo.name, photo.labelNames);
      if d == AddEven {
        actions := actions + [AddLabel(photo.uid, EvenLabel)];
      } else if d == AddOdd {
        actions := actions + [AddLabel(photo.uid, OddLabel)];
      }
      actions := actions + [Approve(photo.uid)];
      assert photos[..i + 1][..i] == photos[..i];
    }
    assert photos[..|photos|] == photos;
  }

  /** The UIDs of the approvals among `actions`, in order. */
  function Approvals(actions: seq<Action>): seq<string>
  {
    if actions == [] then []
    else Approvals(actions[..|actions| - 1]) +
         (if actions[|actions| - 1].Approve? then [actions[|actions| - 1].uid] else [])
  }

  lemma {:induction false} ApprovalsAppend(a: seq<Action>, b: seq<Action>)
    ensures Approvals(a + b) == Approvals(a) + Approvals(b)
    decreases |b|
  {
    if b == [] {
      assert a + b == a;
    } else {
      assert (a + b)[..|a + b| - 1] == a + b[..|b| - 1];
      ApprovalsAppend(a, b[..|b| - 1]);
    }
  }

  /** The UIDs of `photos`, in order. */
  function Uids(photos: seq<PhotoView>): seq<string>
  {
    if photos == [] then [] else Uids(photos[..|photos| - 1]) + [photos[|photos| - 1].uid]
  }

  lemma ApprovalsOfOnePhoto(p: PhotoView)
    ensures Approvals(ActionsFor(p)) == [p.uid]
  {
    var acts := ActionsFor(p);
    if |acts| == 2 {
      assert acts[..1] == [acts[0]];
      assert Approvals(acts[..1]) == Approvals([]) + [];
    } else {
      assert acts[..0] == [];
    }
  }

  /** Every photo is approved exactly once, in the order of the photos,
      whatever the label outcome. */
  lemma {:induction false} EveryPhotoApprovedInOrder(photos: seq<PhotoView>)
    ensures Approvals(Plan(photos)) == Uids(photos)
  {
    if photos != [] {
      var init, last := photos[..|photos| - 1], photos[|photos| - 1];
      assert Plan(photos) == Plan(init) + ActionsFor(last);
      EveryPhotoApprovedInOrder(init);
      ApprovalsAppend(Plan(init), ActionsFor(last));
      ApprovalsOfOnePhoto(last);
      assert Approvals(Plan(photos)) == Uids(init) + [last.uid];
    }
  }

  /** Every label request in the plan is the rule's outcome for a photo with
      that UID. */
  lemma {:induction false} LabelsFollowTheRule(photos: seq<PhotoView>, k: nat)
    requires k < |Plan(photos)| && Plan(photos)[k].AddLabel?
    ensures exists i | 0 <= i < |photos| ::
              && photos[i].uid == Plan(photos)[k].uid
              && Decide(photos[i].name, photos[i].labelNames) != NoLabel
              && Plan(photos)[k].request == LabelFor(Decide(photos[i].name, photos[i].labelNames))
  {
    var init, last := photos[..|photos| - 1], photos[|photos| - 1];
    if k < |Plan(init)| {
      LabelsFollowTheRule(init, k);
      var i :| 0 <= i < |init| && init[i].uid == Plan(init)[k].uid &&
               Decide(init[i].name, init[i].labelNames) != NoLabel &&
               Plan(init)[k].request == LabelFor(Decide(init[i].name, init[i].labelNames));
      assert photos[i] == init[i];
    } else {
      assert Plan(photos)[k] == ActionsFor(last)[k - |Plan(init)|];
      assert photos[|photos| - 1] == last;
    }
  }

  /** Conversely, every photo the rule selects gets its label request. */
  lemma {:induction false} RuleFiresThenLabelled(photos: seq<PhotoView>, i: nat)
    requires i < |photos| && Decide(photos[i].name, photos[i].labelNames) != NoLabel
    ensures AddLabel(photos[i].uid, LabelFor(Decide(photos[i].name, photos[i].labelNames))) in Plan(photos)
  {
    var init, last := photos[..|photos| - 1], photos[|photos| - 1];
    assert Plan(photos) == Plan(init) + ActionsFor(last);
    if i < |init| {
      assert photos[i] == init[i];
      RuleFiresThenLabelled(init, i);
    } else {
      assert ActionsFor(last)[0] in Plan(photos);
    }
  }
}
