/**
 * `useItemFormHandler` of the item form: the hook owns one draft, replaces
 * it wholesale on every setter (copy, change one field, store the copy), and
 * on submit stores and hands over a copy annotated with its error record.
 */
module ItemFormHook {
  import opened Wrappers
  import opened Drafts

  class ItemFormHandler {
    /** The hook's `item` state, exposed to the form as `validatedItem`. */
    var item: Draft

    /** The `useState` initial value. */
    constructor ()
      ensures item.firebaseId == None
      ensures item.category == "" && item.name == ""
      ensures item.price == 0 && item.cost == 0 && item.stocks == 0
      ensures item.variants == [Variant("", 0, 0, 0)]
      ensures item.isSingleSized
      ensures item.errors == map[]
    {
      item := InitialDraft;
    }

    /** The layout effect on `newItem`: a defined item replaces the whole
        draft; an undefined one leaves it as it is. */
    method Seed(newItem: Option<Draft>)
      modifies this
      ensures item == if newItem.Some? then newItem.value else old(item)
    {
      if newItem.Some? {
        item := newItem.value;
      }
    }

    /** `handleSubmit`: the copy of the draft that differs only in its error
        record is stored and returned; the caller's callback receives it
        exactly once. */
    method HandleSubmit() returns (submitted: Draft)
      modifies this
      ensures submitted == old(item).(errors := Validate(old(item)))
      ensures item == submitted
    {
      var errors := ValidateForm(item);
      var newItem := item.(errors := errors);
      item := newItem;
      submitted := newItem;
    }

    method SetItemCategory(newCategory: string)
      modifies this
      ensures item == old(item).(category := newCategory)
    {
      item := item.(category := newCategory);
    }

    method SetItemName(newName: string)
      modifies this
      ensures item == old(item).(name := newName)
    {
      item := item.(name := newName);
    }

    method SetIsSingleSized(newIsSingleSized: bool)
      modifies this
      ensures item == old(item).(isSingleSized := newIsSingleSized)
    {
      item := item.(isSingleSized := newIsSingleSized);
    }

    method SetItemPrice(newPrice: int)
      modifies this
      ensures item == old(item).(price := newPrice)
    {
      item := item.(price := newPrice);
    }

    method SetItemCost(newCost: int)
      modifies this
      ensures item == old(item).(cost := newCost)
    {
      item := item.(cost := newCost);
    }

    method SetItemStocks(newStocks: int)
      modifies this
      ensures item == old(item).(stocks := newStocks)
    {
      item := item.(stocks := newStocks);
    }

    method SetVariants(newVariants: seq<Variant>)
      modifies this
      ensures item == old(item).(variants := newVariants)
    {
      item := item.(variants := newVariants);
    }
  }

  /** Submitting twice in a row stores the same draft: the error record is a
      fresh derivation from the other fields and never feeds back into it. */
  lemma ResubmitIsStable(d: Draft)
    ensures var once := d.(errors := Validate(d));
      once.(errors := Validate(once)) == once
  {
    var once := d.(errors := Validate(d));
    ValidateDependsOnlyOnCheckedFields(d, once);
  }
}
