/**
 * The form/modal controller as a finite state machine: the modal is closed, open
 * on the empty "new customer" form, or open on the edit form seeded with a record.
 * The component keeps this state in three cells (`open`, `editMode`, `modalData`);
 * `ClientesApp.App.Mode` reads the machine state back from them.
 */
module Modal {
  import opened Records

  datatype ModalState = Closed | CreateForm | EditForm(seed: Record)

  /** The user actions that move the modal: the "add" button, the edit icon on a
      row, cancelling the modal, and a submit whose request did or did not succeed. */
  datatype UiEvent = AddClicked | EditClicked(record: Record) | Cancelled | Submitted(saved: bool)

  /** An edit form is always seeded with a record whose strings are trimmed. */
  predicate SeedTrimmed(m: ModalState) {
    m.EditForm? ==> IsTrimmedRecord(m.seed)
  }

  /** One transition. "Add" only opens the modal, so on an open edit form it
      changes nothing; a failed submit leaves the form open for a retry. */
  function NextMode(m: ModalState, e: UiEvent): (n: ModalState)
    ensures SeedTrimmed(m) ==> SeedTrimmed(n)
  {
    match e
    case AddClicked => if m == Closed then CreateForm else m
    case EditClicked(r) => EditForm(TrimRecord(r))
    case Cancelled => Closed
    case Submitted(saved) => if saved then Closed else m
  }

  /** The state after a sequence of events. */
  function Run(m: ModalState, es: seq<UiEvent>): ModalState
    decreases es
  {
    if es == [] then m else Run(NextMode(m, es[0]), es[1..])
  }

  lemma {:induction false} RunSnoc(m: ModalState, es: seq<UiEvent>, e: UiEvent)
    ensures Run(m, es + [e]) == NextMode(Run(m, es), e)
    decreases es
  {
    if es == [] {
      assert es + [e] == [e];
    } else {
      assert (es + [e])[0] == es[0] && (es + [e])[1..] == es[1..] + [e];
      RunSnoc(NextMode(m, es[0]), es[1..], e);
    }
  }

  /** Whatever happened before, cancelling closes the modal. */
  lemma {:induction false} CancelCloses(m: ModalState, es: seq<UiEvent>)
    ensures Run(m, es + [Cancelled]) == Closed
  {
    RunSnoc(m, es, Cancelled);
  }

  /** Failed submits keep the modal where it is, however many there are. */
  lemma {:induction false} FailedSubmitsKeepMode(m: ModalState, es: seq<UiEvent>)
    requires forall k :: 0 <= k < |es| ==> es[k] == Submitted(false)
    ensures Run(m, es) == m
  {
    if es != [] {
      FailedSubmitsKeepMode(m, es[1..]);
    }
  }

  /** Every reachable edit form is seeded with a trimmed record. */
  lemma {:induction false} RunKeepsSeedTrimmed(m: ModalState, es: seq<UiEvent>)
    requires SeedTrimmed(m)
    ensures SeedTrimmed(Run(m, es))
    decreases es
  {
    if es != [] {
      RunKeepsSeedTrimmed(NextMode(m, es[0]), es[1..]);
    }
  }

  /** The edit form is either the one we started on, or it was opened by an edit
      click on a record, and its seed is that record trimmed. */
  lemma {:induction false} EditFormComesFromClick(m: ModalState, es: seq<UiEvent>)
    requires Run(m, es).EditForm?
    ensures || (m.EditForm? && Run(m, es) == m)
            || exists r :: EditClicked(r) in es && Run(m, es).seed == TrimRecord(r)
    decreases es
  {
    if es != [] {
      var m' := NextMode(m, es[0]);
      EditFormComesFromClick(m', es[1..]);
      if exists r :: EditClicked(r) in es[1..] && Run(m', es[1..]).seed == TrimRecord(r) {
        var r :| EditClicked(r) in es[1..] && Run(m', es[1..]).seed == TrimRecord(r);
        assert EditClicked(r) in es;
      } else if es[0].EditClicked? {
        assert es[0] in es;
      }
    }
  }
}
