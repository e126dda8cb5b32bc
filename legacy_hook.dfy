/**
 * The older `useItemFormHandler` used by the add-item test form. Its draft
 * (`CustomItem`) has no store key. The setters still copy the record and
 * store the copy, but `handleSubmit` writes the error record into the
 * current record in place and hands that same record to the callback.
 * The record is therefore a heap object here, so that sharing the record is
 * visible. Its variant list is a value: the variant objects that shallow
 * copies share in JavaScript are not shared here.
 */
module AddItemFormHook {
  import opened Wrappers
  import opened Drafts

  /** The mutable draft record `CustomItem`. */
  class CustomItem {
    var category: string
    var name: string
    var price: int
    var cost: int
    var stocks: int
    var variants: seq<Variant>
    var isSingleSized: bool
    var errors: ErrorMap

    /** The record's contents as a draft without a store key. */
    function Value(): (d: Draft)
      reads this
      ensures d.firebaseId == None
    {
      Draft(None, category, name, price, cost, stocks, variants, isSingleSized, errors)
    }

    /** An object literal with the fields of `d`. */
    constructor (d: Draft)
      ensures Value() == d.(firebaseId := None)
    {
      category, name := d.category, d.name;
      price, cost, stocks := d.price, d.cost, d.stocks;
      variants, isSingleSized, errors := d.variants, d.isSingleSized, d.errors;
    }

    /** `{...item}`: a fresh record with the same fields. */
    method Copy() returns (c: CustomItem)
      ensures fresh(c)
      ensures c.Value() == Value()
    {
      c := new CustomItem(Value());
    }
  }

  class LegacyItemFormHandler {
    /** The hook's `item` state: a reference to the current record. */
    var item: CustomItem

    /** The `useState` initial value: the same defaults as the other hook,
        without a store key. */
    constructor ()
      ensures fresh(item)
      ensures item.Value() == InitialDraft
      ensures item.variants == [Variant("", 0, 0, 0)] && item.isSingleSized && item.errors == map[]
    {
      item := new CustomItem(InitialDraft);
    }

    /** The effect on `newItem`: a defined record becomes the state (the very
        same reference); an undefined one leaves the state alone. */
    method Seed(newItem: Option<CustomItem>)
      modifies this
      ensures item == if newItem.Some? then newItem.value else old(item)
    {
      if newItem.Some? {
        item := newItem.value;
      }
    }

    /** `handleSubmit`: the error record is written into the current record in
        place, the state is not replaced, and the callback receives the same
        reference. */
    method HandleSubmit() returns (passed: CustomItem)
      modifies item
      ensures item == old(item) && passed == item
      ensures item.Value() == old(item.Value()).(errors := Validate(old(item.Value())))
    {
      var errors := ValidateForm(item.Value());
      item.errors := errors;
      passed := item;
    }

    method SetItemCategory(newCategory: string)
      modifies this
      ensures fresh(item) && unchanged(old(item))
      ensures item.Value() == old(item.Value()).(category := newCategory)
    {
      var newItem := item.Copy();
      newItem.category := newCategory;
      item := newItem;
    }

    method SetItemName(newName: string)
      modifies this
      ensures fresh(item) && unchanged(old(item))
      ensures item.Value() == old(item.Value()).(name := newName)
    {
      var newItem := item.Copy();
      newItem.name := newName;
      item := newItem;
    }

    method SetIsSingleSized(newIsSingleSized: bool)
      modifies this
      ensures fresh(item) && unchanged(old(item))
      ensures item.Value() == old(item.Value()).(isSingleSized := newIsSingleSized)
    {
      var newItem := item.Copy();
      newItem.isSingleSized := newIsSingleSized;
      item := newItem;
    }

    method SetItemPrice(newPrice: int)
      modifies this
      ensures fresh(item) && unchanged(old(item))
      ensures item.Value() == old(item.Value()).(price := newPrice)
    {
      var newItem := item.Copy();
      newItem.price := newPrice;
      item := newItem;
    }

    method SetItemCost(newCost: int)
      modifies this
      ensures fresh(item) && unchanged(old(item))
      ensures item.Value() == old(item.Value()).(cost := newCost)
    {
      var newItem := item.Copy();
      newItem.cost := newCost;
      item := newItem;
    }

    method SetItemStocks(newStocks: int)
      modifies this
      ensures fresh(item) && unchanged(old(item))
      ensures item.Value() == old(item.Value()).(stocks := newStocks)
    {
      var newItem := item.Copy();
      newItem.stocks := newStocks;
      item := newItem;
    }

    method SetVariants(newVariants: seq<Variant>)
      modifies this
      ensures fresh(item) && unchanged(old(item))
      ensures item.Value() == old(item.Value()).(variants := newVariants)
    {
      var newItem := item.Copy();
      newItem.variants := newVariants;
      item := newItem;
    }
  }
}
