/** The catalog editors: the drinks and foods dialogs (DrinkManagementModal.tsx,
    FoodManagementModal.tsx) and the shuttlecock-item dialog (CostSettingsModal.tsx) edit an
    `{id, name, price}` list with the same add, update and remove handlers and the same
    editable row. One list model serves all three. */
module Catalog {
  import opened Wrappers
  import opened Domain
  import opened JsText

  /** The add box and the row editor accept a name that is not blank and a price that is not
      negative. */
  predicate Acceptable(name: string, price: int) {
    Trim(name) != [] && price >= 0
  }

  predicate HasItemId(items: seq<CatalogItem>, id: string) {
    exists k :: 0 <= k < |items| && items[k].id == id
  }

  /** The add box: the list, the name input and the price input. */
  datatype AddBox = AddBox(items: seq<CatalogItem>, name: string, price: int)

  /** `handleAddClick` with a fresh id: an acceptable input appends one item under the trimmed
      name and clears the inputs (name '', price 0); any other input changes nothing. */
  function AddClick(box: AddBox, id: string): (r: AddBox)
    ensures |box.items| <= |r.items| <= |box.items| + 1
    ensures Acceptable(box.name, box.price) <==> |r.items| == |box.items| + 1
    ensures r.items[..|box.items|] == box.items
    ensures Acceptable(box.name, box.price) ==>
      r.items[|box.items|] == CatalogItem(id, Trim(box.name), box.price) &&
      r.items[|box.items|].name != [] && Trimmed(r.items[|box.items|].name) &&
      r.name == [] && r.price == 0
    ensures !Acceptable(box.name, box.price) ==> r == box
  {
    if Acceptable(box.name, box.price) then
      AddBox(box.items + [CatalogItem(id, Trim(box.name), box.price)], [], 0)
    else box
  }

  /** `handleUpdate`: `map` over the list, the item with the id takes the new name and price. */
  function Update(items: seq<CatalogItem>, id: string, name: string, price: int): (r: seq<CatalogItem>)
    ensures |r| == |items|
    ensures forall k :: 0 <= k < |items| ==> r[k].id == items[k].id
    ensures forall k :: 0 <= k < |items| && items[k].id == id ==> r[k] == CatalogItem(id, name, price)
    ensures forall k :: 0 <= k < |items| && items[k].id != id ==> r[k] == items[k]
  {
    seq(|items|, k requires 0 <= k < |items| =>
      if items[k].id == id then items[k].(name := name, price := price) else items[k])
  }

  /** `filter(item => item.id !== id)`. */
  function Without(items: seq<CatalogItem>, id: string): (r: seq<CatalogItem>)
    ensures |r| <= |items|
    ensures forall x :: x in r <==> x in items && x.id != id
  {
    if items == [] then []
    else if items[0].id == id then Without(items[1..], id)
    else [items[0]] + Without(items[1..], id)
  }

  /** `handleRemove`: the item goes only when the confirmation is accepted. */
  function Remove(items: seq<CatalogItem>, id: string, confirmed: bool): (r: seq<CatalogItem>)
    ensures !confirmed ==> r == items
    ensures confirmed ==> r == Without(items, id)
  {
    if confirmed then Without(items, id) else items
  }

  /** The filter keeps the order: filtering a concatenation filters each part. */
  lemma {:induction false} WithoutAppend(a: seq<CatalogItem>, b: seq<CatalogItem>, id: string)
    ensures Without(a + b, id) == Without(a, id) + Without(b, id)
    decreases |a|
  {
    if a == [] {
      assert a + b == b;
    } else {
      assert (a + b)[0] == a[0];
      assert (a + b)[1..] == a[1..] + b;
      WithoutAppend(a[1..], b, id);
    }
  }

  /** Removing an id the list does not hold leaves the list as it is. */
  lemma {:induction false} WithoutAbsent(items: seq<CatalogItem>, id: string)
    requires !HasItemId(items, id)
    ensures Without(items, id) == items
    decreases |items|
  {
    if items != [] {
      assert items[0].id != id;
      assert !HasItemId(items[1..], id) by {
        forall k | 0 <= k < |items[1..]| ensures items[1..][k].id != id {
          assert items[1..][k] == items[k + 1];
        }
      }
      WithoutAbsent(items[1..], id);
      assert [items[0]] + items[1..] == items;
    }
  }

  /** A confirmed remove of the item just added gives back the list before the add. */
  lemma AddThenRemove(box: AddBox, id: string)
    requires !HasItemId(box.items, id)
    ensures Remove(AddClick(box, id).items, id, true) == box.items
  {
    if Acceptable(box.name, box.price) {
      var x := CatalogItem(id, Trim(box.name), box.price);
      WithoutAppend(box.items, [x], id);
      WithoutAbsent(box.items, id);
      assert Without([x], id) == [];
      assert box.items + [] == box.items;
    } else {
      WithoutAbsent(box.items, id);
    }
  }

  /** An update touches no item of another id and leaves ids and order as they were, so a
      second update of the same id with the same values changes nothing more. */
  lemma UpdateIdempotent(items: seq<CatalogItem>, id: string, name: string, price: int)
    ensures Update(Update(items, id, name, price), id, name, price) == Update(items, id, name, price)
  {
    var once := Update(items, id, name, price);
    var twice := Update(once, id, name, price);
    assert |twice| == |once|;
    forall k | 0 <= k < |once| ensures twice[k] == once[k] {
      if items[k].id == id {
        assert once[k].id == id;
      }
    }
  }

  /** An update keeps the list's ids, so a remove after it removes the same positions. */
  lemma {:induction false} RemoveAfterUpdate(items: seq<CatalogItem>, id: string, name: string, price: int)
    ensures Without(Update(items, id, name, price), id) == Without(items, id)
    decreases |items|
  {
    if items != [] {
      var u := Update(items, id, name, price);
      assert u[1..] == Update(items[1..], id, name, price);
      RemoveAfterUpdate(items[1..], id, name, price);
      if items[0].id != id {
        assert u[0] == items[0];
      }
    }
  }

  /** The inputs of an editable row. */
  datatype RowInputs = RowInputs(name: string, price: int)

  /** The row's `handleSave`: the update `(trimmed name, price)` is sent only when the inputs
      are acceptable and differ from the stored item, and exactly then; the row leaves edit mode either way. */
  function RowSave(item: CatalogItem, inputs: RowInputs): (sent: Option<RowInputs>)
    ensures sent.Some? ==> Acceptable(sent.value.name, sent.value.price) && Trimmed(sent.value.name)
    ensures sent.Some? ==> sent.value != RowInputs(item.name, item.price)
    ensures !Acceptable(inputs.name, inputs.price) ==> sent.None?
    ensures sent.Some? ==> sent.value.price == inputs.price && sent.value.name == Trim(inputs.name)
    ensures Acceptable(inputs.name, inputs.price) && RowInputs(Trim(inputs.name), inputs.price) != RowInputs(item.name, item.price)
            ==> sent.Some?
  {
    var name := Trim(inputs.name);
    TrimOfTrimmed(name);
    if name != [] && inputs.price >= 0 && (name != item.name || inputs.price != item.price) then
      Some(RowInputs(name, inputs.price))
    else None
  }

  /** The row's `handleCancel`: the inputs go back to the stored name and price. */
  function RowCancel(item: CatalogItem): (inputs: RowInputs)
    ensures inputs.name == item.name && inputs.price == item.price
  {
    RowInputs(item.name, item.price)
  }

  /** Saving right after a cancel sends nothing, since the stored names are trimmed. */
  lemma SaveAfterCancel(item: CatalogItem)
    requires Trimmed(item.name)
    ensures RowSave(item, RowCancel(item)).None?
  {
    TrimOfTrimmed(item.name);
  }

  /** A sent update, applied through `handleUpdate`, stores the trimmed name and the price
      in the row's item and nothing else moves; saving the same inputs again sends nothing. */
  lemma SavedRowSettles(items: seq<CatalogItem>, k: int, inputs: RowInputs)
    requires 0 <= k < |items| && RowSave(items[k], inputs).Some?
    ensures var sent := RowSave(items[k], inputs).value;
      var updated := Update(items, items[k].id, sent.name, sent.price);
      updated[k] == CatalogItem(items[k].id, sent.name, sent.price) &&
      RowSave(updated[k], inputs).None?
  {
  }

  /** The shuttlecock-item dialog: a local copy of the list (`useState(currentItems)`) that
      the handlers replace, and the add box's inputs. Nothing leaves it but the Save button. */
  datatype LocalEditor = LocalEditor(box: AddBox)

  /** Opening the dialog copies the current items and starts with empty inputs. */
  function Open(current: seq<CatalogItem>): (e: LocalEditor)
    ensures e.box.items == current && e.box.name == [] && e.box.price == 0
  {
    LocalEditor(AddBox(current, [], 0))
  }

  /** What one handler of the dialog does to the local list. */
  datatype EditStep =
    | Type(name: string, price: int)
    | AddItem(id: string)
    | UpdateItem(id: string, name: string, price: int)
    | RemoveItem(id: string, confirmed: bool)

  function Apply(e: LocalEditor, step: EditStep): LocalEditor {
    match step
    case Type(name, price) => LocalEditor(AddBox(e.box.items, name, price))
    case AddItem(id) => LocalEditor(AddClick(e.box, id))
    case UpdateItem(id, name, price) => LocalEditor(e.box.(items := Update(e.box.items, id, name, price)))
    case RemoveItem(id, confirmed) => LocalEditor(e.box.(items := Remove(e.box.items, id, confirmed)))
  }

  /** The local list after a run of handler calls, none of which reaches the caller. */
  function ApplyAll(e: LocalEditor, steps: seq<EditStep>): LocalEditor
    decreases |steps|
  {
    if steps == [] then e else ApplyAll(Apply(e, steps[0]), steps[1..])
  }

  /** `handleSave`: the whole local list is handed to `onSave`. */
  function Save(e: LocalEditor): (saved: seq<CatalogItem>)
    ensures saved == e.box.items
  {
    e.box.items
  }

  /** Typing a name and price and pressing add, then Save, hands over the opened list with
      the new item at the end when the inputs are acceptable, and the opened list otherwise. */
  lemma TypeAddSave(current: seq<CatalogItem>, name: string, price: int, id: string)
    ensures Save(ApplyAll(Open(current), [Type(name, price), AddItem(id)])) ==
      if Acceptable(name, price) then current + [CatalogItem(id, Trim(name), price)] else current
  {
    var e := Apply(Open(current), Type(name, price));
    assert ApplyAll(Open(current), [Type(name, price), AddItem(id)]) == ApplyAll(e, [AddItem(id)]);
    assert ApplyAll(e, [AddItem(id)]) == Apply(e, AddItem(id));
  }

  /** Running one more handler is applying it to the state the earlier ones left. */
  lemma {:induction false} ApplyAllSnoc(e: LocalEditor, steps: seq<EditStep>, step: EditStep)
    ensures ApplyAll(e, steps + [step]) == Apply(ApplyAll(e, steps), step)
    decreases |steps|
  {
    if steps == [] {
      assert steps + [step] == [step];
    } else {
      assert (steps + [step])[0] == steps[0];
      assert (steps + [step])[1..] == steps[1..] + [step];
      ApplyAllSnoc(Apply(e, steps[0]), steps[1..], step);
    }
  }

  /** Edits of the local list alone never change the items the dialog was opened with: a
      run with no add, update or remove saves them unchanged. */
  lemma {:induction false} TypingKeepsItems(e: LocalEditor, steps: seq<EditStep>)
    requires forall k :: 0 <= k < |steps| ==> steps[k].Type?
    ensures Save(ApplyAll(e, steps)) == e.box.items
    decreases |steps|
  {
    if steps != [] {
      TypingKeepsItems(Apply(e, steps[0]), steps[1..]);
    }
  }
}
