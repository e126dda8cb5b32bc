/**
 * The item form component: the variant-list handlers, the single-size
 * checkbox, the update-mode flag and submit forwarding, bound to the item
 * form hook.
 */
module ItemFormComponent {
  import opened Wrappers
  import opened Drafts
  import opened VariantEditing
  import opened ItemFormHook

  class ItemForm {
    /** The hook instance the component renders from. */
    const hook: ItemFormHandler
    /** The `item` prop. */
    const itemProp: Option<Draft>
    /** Whether the `onSubmitClick` prop is provided. */
    const hasSubmitCallback: bool

    /** The form as it opens: the hook starts from its initial draft, and the
        layout effect replaces it by the `item` prop when one is given. The
        form is in update mode exactly when the prop carries a store key. */
    constructor (item: Option<Draft>, onSubmitClick: bool)
      ensures fresh(hook)
      ensures itemProp == item && hasSubmitCallback == onSubmitClick
      ensures hook.item == if item.Some? then item.value else InitialDraft
      ensures IsUpdate() <==> item.Some? && item.value.firebaseId.Some?
    {
      var h := new ItemFormHandler();
      h.Seed(item);
      hook := h;
      itemProp := item;
      hasSubmitCallback := onSubmitClick;
    }

    /** `isUpdate`: read from the prop, not from the hook's draft. */
    predicate IsUpdate() {
      itemProp.Some? && itemProp.value.firebaseId.Some?
    }

    /** `handleVariantTypeChange`, `handleVariantPriceChange`,
        `handleVariantCostChange` and `handleVariantStocksChange`: the edit
        says which field. The field of variant `index` is written, then the
        list is handed to `setVariants`. */
    method HandleVariantChange(e: VariantEdit, index: int)
      requires 0 <= index < |hook.item.variants|
      modifies hook
      ensures hook.item == old(hook.item).(variants := ChangedAt(old(hook.item.variants), index, e))
    {
      var variants := hook.item.variants;
      variants := variants[index := ApplyToVariant(variants[index], e)];
      hook.SetVariants(variants);
    }

    /** `handleVariantAdd`: a copy of the list with one blank variant pushed. */
    method HandleVariantAdd()
      modifies hook
      ensures hook.item == old(hook.item).(variants := Added(old(hook.item.variants)))
    {
      var prevVariants := hook.item.variants;
      prevVariants := prevVariants + [BlankVariant];
      hook.SetVariants(prevVariants);
    }

    /** `handleVariantDelete`: with one variant left nothing happens;
        otherwise a copy with `splice(index, 1)` applied is stored. A
        non-empty list stays non-empty. */
    method HandleVariantDelete(index: int)
      modifies hook
      ensures hook.item == old(hook.item).(variants := Deleted(old(hook.item.variants), index))
      ensures |old(hook.item.variants)| == 1 ==> hook.item == old(hook.item)
      ensures |old(hook.item.variants)| >= 1 ==> |hook.item.variants| >= 1
    {
      var prevVariants := hook.item.variants;
      if |prevVariants| == 1 {
        return;
      }
      prevVariants := SpliceOne(prevVariants, index);
      hook.SetVariants(prevVariants);
    }

    /** The single-size checkbox: `setIsSingleSized(!isSingleSized)`. */
    method ToggleSingleSized()
      modifies hook
      ensures hook.item == old(hook.item).(isSingleSized := !old(hook.item.isSingleSized))
    {
      hook.SetIsSingleSized(!hook.item.isSingleSized);
    }

    /** The submit button: `handleSubmit(handleItemSubmit)`. The validated
        draft reaches `onSubmitClick` when that prop is given; otherwise it
        goes nowhere. */
    method Submit() returns (forwarded: Option<Draft>)
      modifies hook
      ensures hook.item == old(hook.item).(errors := Validate(old(hook.item)))
      ensures forwarded == if hasSubmitCallback then Some(hook.item) else None
    {
      var submitted := hook.HandleSubmit();
      forwarded := if hasSubmitCallback then Some(submitted) else None;
    }
  }

  /** Toggling the checkbox twice restores the flag. */
  lemma ToggleTwiceRestores(d: Draft)
    ensures var once := d.(isSingleSized := !d.isSingleSized);
      once.(isSingleSized := !once.isSingleSized) == d
  {
  }

  /** The error shown on variant row `i`: `errors.variants[i]`. */
  function RowError(errors: ErrorMap, i: int): Option<VariantError> {
    VariantErrorAt(errors, "variants", i)
  }

  /** After a submit, row `i` shows an error exactly when the draft is
      multi-sized and variant `i` fails a rule, and it shows that variant's
      record. */
  lemma RowErrorShown(d: Draft, i: int)
    ensures RowError(Validate(d), i).Some? <==>
      !d.isSingleSized && 0 <= i < |d.variants| && Fails(d.variants[i])
    ensures RowError(Validate(d), i).Some? ==> RowError(Validate(d), i) == Entry(d.variants[i])
  {
    if !d.isSingleSized {
      ValidateMultiSized(d);
      if 0 <= i < |d.variants| && Fails(d.variants[i]) {
        assert "variants" in Validate(d);
      }
    } else {
      ValidateSingleSized(d, d.variants);
    }
  }
}
