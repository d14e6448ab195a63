/**
 The market screen's state and the events that change it: saving the form
 (insert or update), deleting an item, opening an item for editing, the
 dialog's open/close buttons, typing into the form, and loading the list.

 Each event is a pure function from the old screen state to the new one.
 The store call inside an event is not modelled; its outcome (success or a
 thrown error) is a parameter, and so is the clock reading used as the id
 of a newly added item.
 */
module Market {
  import opened Decimal
  import opened Mirror

  datatype Option<T> = None | Some(value: T)

  /** Whether the awaited store call returned or threw. */
  datatype StoreOutcome = Ok | Fail

  /** The three text fields of the edit dialog. */
  datatype Form = Form(title: string, category: string, harga: string)

  /**
   The screen's state: the list mirror, the id of the item being edited (or
   none), whether the dialog is open, and the form text.
   */
  datatype Screen = Screen(belanja: seq<Belanja>, editId: Option<int>, visible: bool, formdata: Form)

  /** The state a freshly mounted screen starts in. */
  function Initial(): Screen {
    Screen([], None, false, Form("", "", ""))
  }

  /** JavaScript truthiness of `editId`: `null` and `0` are both false. */
  predicate IsEditing(editId: Option<int>) {
    editId.Some? && editId.value != 0
  }

  /** The item the insert branch appends: the clock reading as id and the form's fields. */
  function NewItem(form: Form, now: int): Belanja {
    Belanja(now, form.title, form.category, ParseInt(form.harga))
  }

  /**
   Saving the form. With a truthy `editId` the items carrying that id take
   the form's fields and `editId` is cleared; otherwise a new item is appended
   and `editId` and the form stay as they are. When the store call throws,
   nothing changes.
   */
  function AddBelanja(s: Screen, now: int, out: StoreOutcome): (t: Screen)
    ensures t.visible == s.visible
    ensures out == Fail ==> t == s
    ensures out == Ok && IsEditing(s.editId) ==>
              && |t.belanja| == |s.belanja|
              && t.editId == None
              && t.formdata == s.formdata
    ensures out == Ok && IsEditing(s.editId) ==>
              forall i :: 0 <= i < |s.belanja| ==>
                && t.belanja[i].id == s.belanja[i].id
                && (s.belanja[i].id == s.editId.value ==>
                      && t.belanja[i].title == s.formdata.title
                      && t.belanja[i].category == s.formdata.category
                      && t.belanja[i].harga == ParseInt(s.formdata.harga))
                && (s.belanja[i].id != s.editId.value ==> t.belanja[i] == s.belanja[i])
    ensures out == Ok && !IsEditing(s.editId) ==>
              && |t.belanja| == |s.belanja| + 1
              && t.belanja[..|s.belanja|] == s.belanja
              && t.belanja[|s.belanja|].id == now
              && t.belanja[|s.belanja|].title == s.formdata.title
              && t.belanja[|s.belanja|].category == s.formdata.category
              && t.belanja[|s.belanja|].harga == ParseInt(s.formdata.harga)
              && t.editId == s.editId
              && t.formdata == s.formdata
  {
    match out
    case Fail => s
    case Ok =>
      var harga := ParseInt(s.formdata.harga);
      if IsEditing(s.editId) then
        var updated := UpdateById(s.belanja, s.editId.value, s.formdata.title, s.formdata.category, harga);
        s.(belanja := updated, editId := None)
      else
        var appended := s.belanja + [NewItem(s.formdata, now)];
        assert appended[..|s.belanja|] == s.belanja;
        s.(belanja := appended)
  }

  /**
   Deleting the items with id `id`. On success the remaining items keep their
   relative order; the dialog, the form and `editId` are not touched. When the
   store call throws, nothing changes.
   */
  function DeleteBelanja(s: Screen, id: int, out: StoreOutcome): (t: Screen)
    ensures out == Fail ==> t == s
    ensures out == Ok ==>
              && (forall r :: r in t.belanja <==> r in s.belanja && r.id != id)
              && |t.belanja| == |s.belanja| - CountId(s.belanja, id)
              && IsSubseq(t.belanja, s.belanja)
    ensures t.editId == s.editId && t.visible == s.visible && t.formdata == s.formdata
  {
    match out
    case Fail => s
    case Ok =>
      RemoveIsSubseq(s.belanja, id);
      s.(belanja := RemoveById(s.belanja, id))
  }

  /**
   Opening an item for editing: the form shows its fields, with the price as
   its printed text (minimal decimal digits, or "NaN"), which parses back to
   the price; `editId` is the item's id and the dialog opens. The list is not
   touched.
   */
  function HandleEdit(s: Screen, r: Belanja): (t: Screen)
    ensures t.formdata.title == r.title && t.formdata.category == r.category
    ensures ParseInt(t.formdata.harga) == r.harga
    ensures r.harga.Int? ==> IsMinimal(t.formdata.harga)
    ensures r.harga.NaN? ==> t.formdata.harga == "NaN"
    ensures t.editId == Some(r.id)
    ensures t.visible
    ensures t.belanja == s.belanja
  {
    ParseToStringRoundTrip(r.harga);
    s.(formdata := Form(r.title, r.category, ToString(r.harga)), editId := Some(r.id), visible := true)
  }

  /** The plus button: opens the dialog and touches nothing else. */
  function PressPlus(s: Screen): (t: Screen)
    ensures t.visible
    ensures t.belanja == s.belanja && t.editId == s.editId && t.formdata == s.formdata
  {
    s.(visible := true)
  }

  /** The Cancel button, and dismissing the dialog: closes it and touches nothing else. */
  function CloseDialog(s: Screen): (t: Screen)
    ensures !t.visible
    ensures t.belanja == s.belanja && t.editId == s.editId && t.formdata == s.formdata
  {
    s.(visible := false)
  }

  /** The Save button: closes the dialog first, whatever the store call then does, and saves. */
  function PressSave(s: Screen, now: int, out: StoreOutcome): (t: Screen)
    ensures !t.visible
    ensures t == AddBelanja(s, now, out).(visible := false)
  {
    AddBelanja(CloseDialog(s), now, out)
  }

  datatype Field = Title | Category | Harga

  /** A keystroke in one of the three text inputs: that field takes the new text. */
  function ChangeText(s: Screen, field: Field, text: string): (t: Screen)
    ensures t.belanja == s.belanja && t.editId == s.editId && t.visible == s.visible
    ensures field == Title ==> t.formdata == s.formdata.(title := text)
    ensures field == Category ==> t.formdata == s.formdata.(category := text)
    ensures field == Harga ==> t.formdata == s.formdata.(harga := text)
  {
    match field
    case Title => s.(formdata := s.formdata.(title := text))
    case Category => s.(formdata := s.formdata.(category := text))
    case Harga => s.(formdata := s.formdata.(harga := text))
  }

  /**
   Loading the list: on success the mirror becomes the rows the store
   returned; on failure it keeps its previous value. Nothing else changes.
   */
  function LoadBelanja(s: Screen, rows: seq<Belanja>, out: StoreOutcome): (t: Screen)
    ensures out == Ok ==> t.belanja == rows
    ensures out == Fail ==> t == s
    ensures t.editId == s.editId && t.visible == s.visible && t.formdata == s.formdata
  {
    if out == Ok then s.(belanja := rows) else s
  }

  /**
   Opening an item and saving it without a keystroke leaves the list as it
   was, provided the item's id is not 0 and every item sharing its id is that
   same item. The dialog ends closed and `editId` cleared.
   */
  lemma EditThenSaveRoundTrip(s: Screen, r: Belanja, now: int)
    requires r.id != 0
    requires forall i :: 0 <= i < |s.belanja| && s.belanja[i].id == r.id ==> s.belanja[i] == r
    ensures var t := PressSave(HandleEdit(s, r), now, Ok);
            t.belanja == s.belanja && t.editId == None && !t.visible
  {
    ParseToStringRoundTrip(r.harga);
    UpdateWithOwnFields(s.belanja, r);
  }

  /**
   An item whose id is 0 cannot be edited: 0 is falsy, so saving it appends a
   copy instead, and `editId` stays 0. The screen never holds such an item:
   table ids count up from 1 and new ids are clock readings. The lemma records
   the boundary of the round trip above; it is not a reachable fault.
   */
  lemma EditZeroIdAppends(s: Screen, r: Belanja, now: int)
    requires r.id == 0
    ensures var t := PressSave(HandleEdit(s, r), now, Ok);
            && |t.belanja| == |s.belanja| + 1
            && t.belanja[..|s.belanja|] == s.belanja
            && t.belanja[|s.belanja|] == r.(id := now)
            && t.editId == Some(0)
  {
    ParseToStringRoundTrip(r.harga);
  }

  /**
   Cancel does not clear `editId`: opening an item, cancelling, pressing plus
   and saving still updates that item in place instead of adding a new one.
   */
  lemma CancelKeepsPendingEdit(s: Screen, r: Belanja, now: int)
    requires r.id != 0
    ensures PressPlus(CloseDialog(HandleEdit(s, r))) == HandleEdit(s, r)
    ensures var t := PressSave(PressPlus(CloseDialog(HandleEdit(s, r))), now, Ok);
            |t.belanja| == |s.belanja| && t.editId == None
  {
  }

  /**
   Saving a new item does not reset the form: pressing plus and saving again
   appends a second item with the same fields.
   */
  lemma InsertKeepsForm(s: Screen, now1: int, now2: int)
    requires !IsEditing(s.editId)
    ensures var t := PressSave(PressPlus(PressSave(s, now1, Ok)), now2, Ok);
            && |t.belanja| == |s.belanja| + 2
            && t.belanja[..|s.belanja|] == s.belanja
            && t.belanja[|s.belanja|] == NewItem(s.formdata, now1)
            && t.belanja[|s.belanja| + 1] == NewItem(s.formdata, now2)
  {
    var t1 := PressSave(s, now1, Ok);
    var t := PressSave(PressPlus(t1), now2, Ok);
    assert t.belanja == s.belanja + [NewItem(s.formdata, now1)] + [NewItem(s.formdata, now2)];
  }

  /** Price text that `parseInt` reads as no number at all: empty, or starting with a letter. */
  predicate EmptyOrLetterFirst(text: string) {
    |text| == 0 || ('a' <= text[0] <= 'z') || ('A' <= text[0] <= 'Z')
  }

  /**
   The price of a newly saved item as the insert branch computes it: canonical
   text gives an integer whose printed form is that text when it has no
   redundant leading zeros, and empty text or text starting with a letter
   gives `NaN`.
   */
  lemma InsertPriceParsing(s: Screen, now: int)
    requires !IsEditing(s.editId)
    ensures var t := PressSave(s, now, Ok);
            && |t.belanja| == |s.belanja| + 1
            && (IsCanonical(s.formdata.harga) ==> t.belanja[|s.belanja|].harga.Int?)
            && (IsMinimal(s.formdata.harga) ==> ToString(t.belanja[|s.belanja|].harga) == s.formdata.harga)
            && (EmptyOrLetterFirst(s.formdata.harga) ==> t.belanja[|s.belanja|].harga == NaN)
  {
    if IsMinimal(s.formdata.harga) {
      ToStringParseRoundTrip(s.formdata.harga);
    }
  }

  /**
   Typing the three fields and saving, with no item being edited, appends
   exactly the item made of the typed text, priced by parsing the price text,
   with the clock reading as id. The form keeps the typed text.
   */
  lemma TypeThenSaveAppends(s: Screen, title: string, category: string, price: string, now: int)
    requires !IsEditing(s.editId)
    ensures var typed := ChangeText(ChangeText(ChangeText(PressPlus(s), Title, title), Category, category), Harga, price);
            var t := PressSave(typed, now, Ok);
            && t.belanja == s.belanja + [Belanja(now, title, category, ParseInt(price))]
            && t.editId == s.editId
            && t.formdata == Form(title, category, price)
            && !t.visible
  {
    var typed := ChangeText(ChangeText(ChangeText(PressPlus(s), Title, title), Category, category), Harga, price);
    var t := PressSave(typed, now, Ok);
    assert t.belanja[..|s.belanja|] == s.belanja;
  }

  /**
   A freshly mounted screen: press plus, type "Milk", "Dairy" and "25000",
   save. The list holds exactly one item, priced at the integer 25000, and
   the dialog is closed.
   */
  lemma FirstSaveOnFreshScreen(now: int)
    ensures var typed := ChangeText(ChangeText(ChangeText(PressPlus(Initial()), Title, "Milk"), Category, "Dairy"), Harga, "25000");
            var t := PressSave(typed, now, Ok);
            && t.belanja == [Belanja(now, "Milk", "Dairy", Int(25000))]
            && t.editId == None
            && !t.visible
  {
    TypeThenSaveAppends(Initial(), "Milk", "Dairy", "25000", now);
    assert "25000"[..4] == "2500" && "2500"[..3] == "250" && "250"[..2] == "25" && "25"[..1] == "2" && "2"[..0] == "";
    assert ParseDigits("25000") == 25000;
  }

  /**
   Opening an item, closing the dialog and deleting that item does not clear
   `editId` (the dialog is modal, so Delete is only reachable once it is
   closed). A later save therefore
   updates nothing: the list keeps the deletion, gains no item, and the edit
   is dropped without a trace.
   */
  lemma DeleteWhileEditingDropsSave(s: Screen, r: Belanja, now: int)
    requires r.id != 0
    ensures var t := PressSave(PressPlus(DeleteBelanja(CloseDialog(HandleEdit(s, r)), r.id, Ok)), now, Ok);
            && t.belanja == RemoveById(s.belanja, r.id)
            && t.editId == None
  {
    var d := DeleteBelanja(CloseDialog(HandleEdit(s, r)), r.id, Ok);
    forall i | 0 <= i < |d.belanja|
      ensures d.belanja[i].id != r.id
    {
      assert d.belanja[i] in d.belanja;
    }
    var t := PressSave(PressPlus(d), now, Ok);
    assert t.belanja == d.belanja;
  }
}
