/**
 * The item draft edited by the item forms, and `validateForm`: the pure
 * derivation of an error record from a draft.
 *
 * The error record is the source's `Record<string, any>`: a map from the keys
 * "name", "category", "price" and "variants" to either a message or the
 * sparse, index-aligned array of per-variant error records. A JavaScript
 * array written only by `errors[i] = record` is modelled as a sequence of
 * optional records whose length is one more than the largest index written;
 * the indices never written (holes) are `None`.
 */
module Drafts {
  import opened Wrappers

  /** One purchasable size of an item. The source's field `type` is `kind` here. */
  datatype Variant = Variant(kind: string, price: int, cost: int, stocks: int)

  /** The error record of one variant, keyed by "price" and/or "type". */
  type VariantError = map<string, string>

  /** A value stored in the error record. */
  datatype ErrorValue =
    | Message(text: string)
    | PerVariant(entries: seq<Option<VariantError>>)

  type ErrorMap = map<string, ErrorValue>

  /** The draft held by the item form hook. */
  datatype Draft = Draft(
    firebaseId: Option<string>,
    category: string,
    name: string,
    price: int,
    cost: int,
    stocks: int,
    variants: seq<Variant>,
    isSingleSized: bool,
    errors: ErrorMap)

  const NameRequired := "Item name is required."
  const CategoryRequired := "Item category is required."
  const PriceInvalid := "Item must have a valid price."
  const VariantPriceRequired := "Price required."
  const VariantTypeRequired := "Type required."

  /** The variant the form starts with and appends: `{type: "", price: 0, cost: 0, stocks: 0}`. */
  const BlankVariant := Variant("", 0, 0, 0)

  /** The hook's initial state. */
  const InitialDraft := Draft(None, "", "", 0, 0, 0, [BlankVariant], true, map[])

  // ---------------------------------------------------------------------
  // Per-variant rules
  // ---------------------------------------------------------------------

  /** A variant is rejected when its price is zero or its type is empty. */
  predicate Fails(v: Variant) { v.price == 0 || v.kind == "" }

  /** The record the validator builds for one variant. */
  function VariantErrors(v: Variant): VariantError {
    var variantRecord := if v.price == 0 then map["price" := VariantPriceRequired] else map[];
    if v.kind == "" then variantRecord["type" := VariantTypeRequired] else variantRecord
  }

  /** What ends up at a variant's index of the sparse array. */
  function Entry(v: Variant): Option<VariantError> {
    if Fails(v) then Some(VariantErrors(v)) else None
  }

  /** The length the sparse array reaches: one more than the largest failing
      index, or zero when no variant fails. */
  function Extent(vs: seq<Variant>): (n: nat)
    ensures n <= |vs|
    ensures n > 0 ==> Fails(vs[n - 1])
    ensures forall j :: n <= j < |vs| ==> !Fails(vs[j])
  {
    if vs == [] then 0
    else if Fails(vs[|vs| - 1]) then |vs|
    else Extent(vs[..|vs| - 1])
  }

  /** The sparse, index-aligned array of per-variant errors. */
  function SparseErrors(vs: seq<Variant>): seq<Option<VariantError>> {
    seq(Extent(vs), j requires 0 <= j < Extent(vs) => Entry(vs[j]))
  }

  /** `validateForm`, as a function of the draft. */
  function Validate(d: Draft): ErrorMap {
    var withName := if d.name == "" then map["name" := Message(NameRequired)] else map[];
    var withCategory := if d.category == "" then withName["category" := Message(CategoryRequired)] else withName;
    if !d.isSingleSized then
      var entries := SparseErrors(d.variants);
      if |entries| > 0 then withCategory["variants" := PerVariant(entries)] else withCategory
    else if d.price == 0 then withCategory["price" := Message(PriceInvalid)]
    else withCategory
  }

  /** How a form reads row `i` of a per-variant error array stored under
      `key`: `errors.<key> && errors.<key>[i]`, undefined when the key is
      missing, the index is out of range or the entry is a hole. */
  function VariantErrorAt(errors: ErrorMap, key: string, i: int): Option<VariantError> {
    if key in errors && errors[key].PerVariant? && 0 <= i < |errors[key].entries|
    then errors[key].entries[i]
    else None
  }

  // ---------------------------------------------------------------------
  // The accumulating loop of the source
  // ---------------------------------------------------------------------

  /** JavaScript's `arr[i] = x` on an array of optional values: an index past
      the end extends the array, leaving holes in between. */
  function AssignAt<T>(arr: seq<Option<T>>, i: nat, x: T): (r: seq<Option<T>>)
    ensures |r| == if i < |arr| then |arr| else i + 1
    ensures r[i] == Some(x)
    ensures forall j :: 0 <= j < |arr| && j != i ==> r[j] == arr[j]
    ensures forall j :: |arr| <= j < |r| && j != i ==> r[j] == None
  {
    if i < |arr| then arr[i := Some(x)] else arr + seq(i - |arr|, _ => None) + [Some(x)]
  }

  lemma VariantErrorsNonEmpty(v: Variant)
    ensures VariantErrors(v) != map[] <==> Fails(v)
  {
    if v.price == 0 {
      assert "price" in VariantErrors(v);
    } else if v.kind == "" {
      assert "type" in VariantErrors(v);
    }
  }

  /** One step of the `map` loop: the array for a prefix, extended by the
      record of the next variant when a rule fires for it, is the array for
      the longer prefix. */
  lemma {:induction false} ExtendStep(vs: seq<Variant>, i: nat, errors: seq<Option<VariantError>>)
    requires i < |vs|
    requires errors == SparseErrors(vs[..i])
    ensures (if Fails(vs[i]) then AssignAt(errors, i, VariantErrors(vs[i])) else errors) == SparseErrors(vs[..i + 1])
  {
    var pre, next := vs[..i], vs[..i + 1];
    assert next[..i] == pre;
    if Fails(vs[i]) {
      var r := AssignAt(errors, i, VariantErrors(vs[i]));
      assert Extent(next) == i + 1;
      forall j | 0 <= j <= i ensures r[j] == Entry(vs[j]) {
        if j < |errors| {
          assert errors[j] == Entry(pre[j]);
        } else if j < i {
          assert !Fails(pre[j]);
        }
      }
    } else {
      assert Extent(next) == Extent(pre);
    }
  }

  /** The `map` loop of `validateForm`: the sparse array is filled step by
      step, `errors[i] = variantRecord` for every variant with a non-empty
      record. */
  method CollectVariantErrors(vs: seq<Variant>) returns (errors: seq<Option<VariantError>>)
    ensures errors == SparseErrors(vs)
  {
    errors := [];
    var i := 0;
    while i < |vs|
      invariant 0 <= i <= |vs|
      invariant errors == SparseErrors(vs[..i])
    {
      var variant := vs[i];
      var variantRecord: VariantError := map[];
      if variant.price == 0 {
        variantRecord := variantRecord["price" := VariantPriceRequired];
      }
      if variant.kind == "" {
        variantRecord := variantRecord["type" := VariantTypeRequired];
      }
      VariantErrorsNonEmpty(variant);
      ExtendStep(vs, i, errors);
      if variantRecord != map[] {
        errors := AssignAt(errors, i, variantRecord);
      }
      i := i + 1;
    }
    assert vs[..i] == vs;
  }

  /** `validateForm` as the source writes it: the error record is filled
      rule by rule. It computes `Validate`. */
  method ValidateForm(d: Draft) returns (errorRecord: ErrorMap)
    ensures errorRecord == Validate(d)
  {
    errorRecord := map[];
    if d.name == "" {
      errorRecord := errorRecord["name" := Message(NameRequired)];
    }
    if d.category == "" {
      errorRecord := errorRecord["category" := Message(CategoryRequired)];
    }
    if !d.isSingleSized {
      var errors := CollectVariantErrors(d.variants);
      if |errors| > 0 {
        errorRecord := errorRecord["variants" := PerVariant(errors)];
      }
    } else if d.price == 0 {
      errorRecord := errorRecord["price" := Message(PriceInvalid)];
    }
  }

  // ---------------------------------------------------------------------
  // What the validator promises
  // ---------------------------------------------------------------------

  /** A variant has an entry exactly when a rule fires for it, and the entry
      holds the message of each rule that fired and nothing else. */
  lemma EntryRules(v: Variant)
    ensures Entry(v).Some? <==> Fails(v)
    ensures Entry(v).Some? ==>
      var m := Entry(v).value;
      m.Keys <= {"price", "type"} &&
      ("price" in m <==> v.price == 0) &&
      ("type" in m <==> v.kind == "") &&
      ("price" in m ==> m["price"] == VariantPriceRequired) &&
      ("type" in m ==> m["type"] == VariantTypeRequired)
  {
  }

  /** The name and category rules. */
  lemma ValidateNameAndCategory(d: Draft)
    ensures "name" in Validate(d) <==> d.name == ""
    ensures "name" in Validate(d) ==> Validate(d)["name"] == Message(NameRequired)
    ensures "category" in Validate(d) <==> d.category == ""
    ensures "category" in Validate(d) ==> Validate(d)["category"] == Message(CategoryRequired)
  {
  }

  /** Single-sized mode: a price error exactly for a zero price, never a
      "variants" key, and the variant list does not matter. */
  lemma ValidateSingleSized(d: Draft, others: seq<Variant>)
    requires d.isSingleSized
    ensures "price" in Validate(d) <==> d.price == 0
    ensures "price" in Validate(d) ==> Validate(d)["price"] == Message(PriceInvalid)
    ensures "variants" !in Validate(d)
    ensures Validate(d.(variants := others)) == Validate(d)
  {
  }

  /** Multi-sized mode: never a top-level price error; a "variants" key exactly
      when some variant fails, holding an array one longer than the largest
      failing index whose entry `i` is present exactly when variant `i` fails. */
  lemma ValidateMultiSized(d: Draft)
    requires !d.isSingleSized
    ensures "price" !in Validate(d)
    ensures "variants" in Validate(d) <==> exists i :: 0 <= i < |d.variants| && Fails(d.variants[i])
    ensures "variants" in Validate(d) ==>
      Validate(d)["variants"].PerVariant? &&
      var es := Validate(d)["variants"].entries;
      1 <= |es| <= |d.variants| &&
      Fails(d.variants[|es| - 1]) &&
      (forall j :: |es| <= j < |d.variants| ==> !Fails(d.variants[j])) &&
      (forall i :: 0 <= i < |es| ==> es[i] == Entry(d.variants[i]))
  {
    if exists i :: 0 <= i < |d.variants| && Fails(d.variants[i]) {
      var i :| 0 <= i < |d.variants| && Fails(d.variants[i]);
      assert Extent(d.variants) > i;
    }
  }

  /** The error record is empty exactly when no rule fires, and it never has
      a key other than the four the rules write. */
  lemma ValidateEmptyIff(d: Draft)
    ensures Validate(d).Keys <= {"name", "category", "price", "variants"}
    ensures Validate(d) == map[] <==>
      d.name != "" && d.category != "" &&
      (if d.isSingleSized then d.price != 0
       else forall i :: 0 <= i < |d.variants| ==> !Fails(d.variants[i]))
  {
    if Validate(d) == map[] {
      assert "name" !in Validate(d) && "category" !in Validate(d);
      if d.isSingleSized {
        assert "price" !in Validate(d);
      } else {
        ValidateMultiSized(d);
      }
    } else if d.name != "" && d.category != "" && !d.isSingleSized {
      ValidateMultiSized(d);
    }
  }

  /** Two drafts that agree on everything the rules read. Cost, stocks, the
      previous errors, the store key, and the variants' cost and stocks are
      not among them; nor are the variants in single-sized mode, nor the
      top-level price in multi-sized mode. */
  predicate SameValidatedFields(d: Draft, e: Draft) {
    d.name == e.name && d.category == e.category && d.isSingleSized == e.isSingleSized &&
    (d.isSingleSized ==> d.price == e.price) &&
    (!d.isSingleSized ==>
      |d.variants| == |e.variants| &&
      forall i :: 0 <= i < |d.variants| ==>
        d.variants[i].kind == e.variants[i].kind && d.variants[i].price == e.variants[i].price)
  }

  lemma {:induction false} ExtentSameShape(vs: seq<Variant>, ws: seq<Variant>)
    requires |vs| == |ws|
    requires forall i :: 0 <= i < |vs| ==> vs[i].kind == ws[i].kind && vs[i].price == ws[i].price
    ensures Extent(vs) == Extent(ws)
  {
    if vs != [] {
      var n := |vs| - 1;
      if !Fails(vs[n]) {
        ExtentSameShape(vs[..n], ws[..n]);
      }
    }
  }

  /** Only the fields the rules read influence the error record. */
  lemma ValidateDependsOnlyOnCheckedFields(d: Draft, e: Draft)
    requires SameValidatedFields(d, e)
    ensures Validate(d) == Validate(e)
  {
    if !d.isSingleSized {
      ExtentSameShape(d.variants, e.variants);
      var sd, se := SparseErrors(d.variants), SparseErrors(e.variants);
      assert |sd| == |se|;
      forall j | 0 <= j < |sd| ensures sd[j] == se[j] {
        assert Entry(d.variants[j]) == Entry(e.variants[j]);
      }
      assert sd == se;
    }
  }

  /** The initial draft, submitted untouched, reports exactly the name,
      category and price errors. */
  lemma InitialDraftErrors()
    ensures Validate(InitialDraft) == map[
      "name" := Message(NameRequired),
      "category" := Message(CategoryRequired),
      "price" := Message(PriceInvalid)]
  {
  }

  /** A single-sized draft with a name, a category and a price validates to
      the empty record. */
  lemma SingleSizedScenario()
    ensures Validate(Draft(None, "Drinks", "Iced Tea", 15, 10, 5, [BlankVariant], true, map[])) == map[]
  {
  }

  /** A multi-sized draft whose second variant has neither type nor price gets
      a two-entry array with a hole at index 0. */
  lemma MultiSizedScenario()
    ensures
      var d := Draft(None, "Drinks", "Iced Tea", 0, 0, 0, [Variant("Small", 10, 5, 3), BlankVariant], false, map[]);
      Validate(d) == map["variants" := PerVariant([
        None, Some(map["price" := VariantPriceRequired, "type" := VariantTypeRequired])])]
  {
    var vs := [Variant("Small", 10, 5, 3), BlankVariant];
    assert Extent(vs) == 2;
    assert SparseErrors(vs) == [None, Some(map["price" := VariantPriceRequired, "type" := VariantTypeRequired])];
  }
}
