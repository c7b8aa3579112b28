/**
 * The component's state and its event handlers. The four state cells are the
 * customer list `data`, the modal's visibility `open`, the record seeded into the
 * form `modalData` and the flag `editMode`; every handler is one method, runs to
 * completion, takes the outcome of its request as an argument and returns the
 * request it issued.
 */
module ClientesApp {
  import opened Records
  import opened ClienteList
  import opened Adapter
  import opened Modal

  class App {
    var data: seq<Record>
    var open: bool
    var modalData: Record
    var editMode: bool

    /** Edit mode only ever shows with the modal open; outside edit mode the seeded
        record is empty; the seeded record's strings are trimmed. */
    ghost predicate Valid()
      reads this
    {
      && (editMode ==> open)
      && (!editMode ==> modalData == map[])
      && IsTrimmedRecord(modalData)
    }

    /** The state of the modal machine held by `open`, `editMode` and `modalData`;
        under `Valid()` those three cells are determined by it. */
    ghost function Mode(): (m: ModalState)
      reads this
      ensures Valid() ==> && (open <==> !m.Closed?)
                          && (editMode <==> m.EditForm?)
                          && modalData == (if m.EditForm? then m.seed else map[])
                          && SeedTrimmed(m)
    {
      if !open then Closed else if editMode then EditForm(modalData) else CreateForm
    }

    /** The initial state: no customers, modal closed, nothing seeded. */
    constructor ()
      ensures Valid() && Mode() == Closed
      ensures data == [] && !open && modalData == map[] && !editMode
    {
      data := [];
      open := false;
      modalData := map[];
      editMode := false;
    }

    /** The list read on mount: a body replaces the list wholesale, whatever the
        status; a thrown error leaves it as it was. */
    method FetchClientes(outcome: LoadOutcome) returns (req: Request)
      modifies this`data
      ensures req == GetAll
      ensures data == (if outcome.Loaded? then outcome.body else old(data))
    {
      req := GetAll;
      match outcome {
        case Loaded(body) => data := body;
        case LoadThrew =>
      }
    }

    /** Create: on success the server's record is appended and the modal closes;
        on a non-ok status or an exception nothing changes. The mode and the seeded
        record are not touched either way. */
    method HandleCreateCliente(values: Record, outcome: WriteOutcome) returns (req: Request)
      modifies this`data, this`open
      ensures req == Post(values)
      ensures outcome.Saved? ==> data == old(data) + [outcome.body] && !open
      ensures !outcome.Saved? ==> data == old(data) && open == old(open)
    {
      req := Post(values);
      match outcome {
        case Saved(created) =>
          data := data + [created];
          open := false;
        case NotOk =>
        case WriteThrew =>
      }
    }

    /** Update: the id is read from the seeded record before the request; on
        success every entry with that id becomes the server's record and the modal
        is reset and closed; on failure nothing changes. */
    method HandleEditCliente(values: Record, outcome: WriteOutcome) returns (req: Request)
      modifies this`data, this`open, this`modalData, this`editMode
      ensures req == Put(IdOf(old(modalData)), values)
      ensures outcome.Saved? ==> && data == ReplaceById(old(data), IdOf(old(modalData)), outcome.body)
                                 && modalData == map[] && !editMode && !open
      ensures !outcome.Saved? ==> unchanged(this)
    {
      var id := IdOf(modalData);
      req := Put(id, values);
      match outcome {
        case Saved(updated) =>
          data := ReplaceById(data, id, updated);
          modalData := map[];
          editMode := false;
          open := false;
        case NotOk =>
        case WriteThrew =>
      }
    }

    /** Delete: once the request returns, with whatever status, every entry with
        the id is dropped; only an exception keeps the list. */
    method HandleDeleteCliente(id: Option<Value>, outcome: DeleteOutcome) returns (req: Request)
      modifies this`data
      ensures req == Delete(id)
      ensures data == (if outcome.Responded? then RemoveById(old(data), id) else old(data))
    {
      req := Delete(id);
      match outcome {
        case Responded(_) => data := RemoveById(data, id);
        case DeleteThrew =>
      }
    }

    /** The edit icon of a row: the modal opens in edit mode on a copy of the
        record with its strings trimmed. The row itself is not changed. */
    method HandleEditClick(record: Record)
      modifies this`modalData, this`editMode, this`open
      ensures modalData == TrimRecord(record) && editMode && open
      ensures Valid() && Mode() == NextMode(old(Mode()), EditClicked(record))
    {
      modalData := TrimRecord(record);
      editMode := true;
      open := true;
    }

    /** Cancel: from any state, the seeded record is cleared, edit mode is left and
        the modal closes. */
    method HandleModalCancel()
      modifies this`modalData, this`editMode, this`open
      ensures modalData == map[] && !editMode && !open
      ensures Valid() && Mode() == NextMode(old(Mode()), Cancelled)
    {
      modalData := map[];
      editMode := false;
      open := false;
    }

    /** The "add" button: only the visibility changes. */
    method AddClick()
      requires Valid()
      modifies this`open
      ensures open
      ensures Valid() && Mode() == NextMode(old(Mode()), AddClicked)
    {
      open := true;
    }

    /** The form's submit handler, reached only once every field passed its
        `required` rule: edit mode sends an update for the seeded id, otherwise a
        create. */
    method OnFinish(values: Record, outcome: WriteOutcome) returns (req: Request)
      requires Valid() && FormComplete(values)
      modifies this
      ensures Valid()
      ensures req == if old(editMode) then Put(IdOf(old(modalData)), values) else Post(values)
      ensures data == if !outcome.Saved? then old(data)
                      else if old(editMode) then ReplaceById(old(data), IdOf(old(modalData)), outcome.body)
                      else old(data) + [outcome.body]
      ensures Mode() == NextMode(old(Mode()), Submitted(outcome.Saved?))
      ensures !outcome.Saved? ==> unchanged(this)
    {
      if editMode {
        req := HandleEditCliente(values, outcome);
      } else {
        req := HandleCreateCliente(values, outcome);
      }
    }
  }

  /** A run of the screen: the list loads as [ana], creating a customer from a
      completed form succeeds with the server's record `bob` (id 2), then deleting
      id 1 leaves exactly [bob] and the modal closed. */
  method Scenario(ana: Record, form: Record, bob: Record) returns (final: seq<Record>, closed: bool)
    requires IdOf(ana) == Some(Num(1)) && IdOf(bob) == Some(Num(2))
    requires FormComplete(form)
    ensures final == [bob] && closed
  {
    var app := new App();
    var _ := app.FetchClientes(Loaded([ana]));
    app.AddClick();
    var _ := app.OnFinish(form, Saved(bob));
    assert app.data == [ana] + [bob];
    var _ := app.HandleDeleteCliente(Some(Num(1)), Responded(true));
    RemoveByIdConcat([ana], [bob], Some(Num(1)));
    final := app.data;
    closed := !app.open;
  }
}
