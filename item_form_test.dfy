/**
 * The add-item test form: the same variant-list handlers, checkbox and
 * submit forwarding as the item form, bound to the older hook. Its field
 * handlers write into the current record's variant list in place before
 * handing the list to `setVariants`, so the record being replaced sees the
 * change too. Older records, which share the variant objects in JavaScript,
 * are not affected here: variants are values.
 */
module ItemFormTestComponent {
  import opened Wrappers
  import opened Drafts
  import opened VariantEditing
  import opened AddItemFormHook
  import ItemFormComponent

  class ItemFormTest {
    const hook: LegacyItemFormHandler
    /** Whether the `onSubmitClick` prop is provided. */
    const hasSubmitCallback: bool

    /** The hook is used without an item, so the form opens on the defaults. */
    constructor (onSubmitClick: bool)
      ensures fresh(hook) && fresh(hook.item)
      ensures hook.item.Value() == InitialDraft
      ensures hasSubmitCallback == onSubmitClick
    {
      hook := new LegacyItemFormHandler();
      hasSubmitCallback := onSubmitClick;
    }

    /** The four variant field handlers; the edit says which field. Variant
        `index` of the current record is written in place, then a fresh copy
        holding that list becomes the state. */
    method HandleVariantChange(e: VariantEdit, index: int)
      requires 0 <= index < |hook.item.variants|
      modifies hook, hook.item
      ensures fresh(hook.item)
      ensures hook.item.Value() == old(hook.item.Value()).(variants := ChangedAt(old(hook.item.variants), index, e))
      ensures old(hook.item).Value() == hook.item.Value()
    {
      hook.item.variants := ChangedAt(hook.item.variants, index, e);
      hook.SetVariants(hook.item.variants);
    }

    /** `handleVariantAdd`: a copy of the list with a blank variant pushed;
        the existing entries are left as they are. */
    method HandleVariantAdd()
      modifies hook
      ensures fresh(hook.item) && unchanged(old(hook.item))
      ensures hook.item.Value() == old(hook.item.Value()).(variants := Added(old(hook.item.variants)))
    {
      var prevVariants := hook.item.variants;
      prevVariants := prevVariants + [BlankVariant];
      hook.SetVariants(prevVariants);
    }

    /** `handleVariantDelete`: a no-op with one variant left; otherwise a copy
        with `splice(index, 1)` applied. */
    method HandleVariantDelete(index: int)
      modifies hook
      ensures |old(hook.item.variants)| == 1 ==> hook.item == old(hook.item)
      ensures |old(hook.item.variants)| != 1 ==> fresh(hook.item)
      ensures unchanged(old(hook.item))
      ensures hook.item.Value() == old(hook.item.Value()).(variants := Deleted(old(hook.item.variants), index))
    {
      var prevVariants := hook.item.variants;
      if |prevVariants| == 1 {
        return;
      }
      prevVariants := SpliceOne(prevVariants, index);
      hook.SetVariants(prevVariants);
    }

    /** The single-size checkbox. */
    method ToggleSingleSized()
      modifies hook
      ensures fresh(hook.item) && unchanged(old(hook.item))
      ensures hook.item.Value() == old(hook.item.Value()).(isSingleSized := !old(hook.item.isSingleSized))
    {
      hook.SetIsSingleSized(!hook.item.isSingleSized);
    }

    /** The save button: the current record, annotated in place, is forwarded
        to `onSubmitClick` when that prop is given. */
    method Submit() returns (forwarded: Option<CustomItem>)
      modifies hook.item
      ensures hook.item == old(hook.item)
      ensures hook.item.Value() == old(hook.item.Value()).(errors := Validate(old(hook.item.Value())))
      ensures forwarded == if hasSubmitCallback then Some(hook.item) else None
    {
      var passed := hook.HandleSubmit();
      forwarded := if hasSubmitCallback then Some(passed) else None;
    }
  }

  /** The error shown on variant row `i`, as written: `errors.variant[i]`. */
  function RowErrorAsWritten(errors: ErrorMap, i: int): Option<VariantError> {
    VariantErrorAt(errors, "variant", i)
  }

  /** The validator never writes a "variant" key, so no row ever shows an
      error, whatever the draft. */
  lemma RowErrorNeverShown(d: Draft, i: int)
    ensures RowErrorAsWritten(Validate(d), i) == None
  {
    ValidateEmptyIff(d);
    assert "variant" !in Validate(d);
  }

  /** A multi-sized draft whose only variant is blank: the item form shows
      the row's error, the test form shows nothing. */
  lemma RowErrorMissedExample()
    ensures var d := Draft(None, "Drinks", "Tea", 0, 0, 0, [BlankVariant], false, map[]);
      ItemFormComponent.RowError(Validate(d), 0).Some? && RowErrorAsWritten(Validate(d), 0) == None
  {
    var d := Draft(None, "Drinks", "Tea", 0, 0, 0, [BlankVariant], false, map[]);
    ItemFormComponent.RowErrorShown(d, 0);
    RowErrorNeverShown(d, 0);
  }
}
