/**
 * The variant-list edits shared by both item form components: append a
 * blank variant, delete one by index unless it is the last, and overwrite
 * one field of one variant.
 */
module VariantEditing {
  import opened Drafts

  /** `slice()` followed by `push(blank)`. */
  function Added(vs: seq<Variant>): seq<Variant> {
    vs + [BlankVariant]
  }

  /** JavaScript's `splice(start, 1)` on a copy: a negative start counts from
      the end (clamped at 0); a start at or past the end removes nothing. */
  function SpliceOne(vs: seq<Variant>, start: int): seq<Variant> {
    var k := if start >= 0 then start else if |vs| + start >= 0 then |vs| + start else 0;
    if k < |vs| then vs[..k] + vs[k + 1..] else vs
  }

  /** `handleVariantDelete`: nothing happens when exactly one variant is left. */
  function Deleted(vs: seq<Variant>, index: int): seq<Variant> {
    if |vs| == 1 then vs else SpliceOne(vs, index)
  }

  /** Which field a variant row's change handler writes, and its new value. */
  datatype VariantEdit =
    | SetKind(kind: string)
    | SetPrice(price: int)
    | SetCost(cost: int)
    | SetStocks(stocks: int)

  function ApplyToVariant(v: Variant, e: VariantEdit): Variant {
    match e
    case SetKind(k) => v.(kind := k)
    case SetPrice(p) => v.(price := p)
    case SetCost(c) => v.(cost := c)
    case SetStocks(s) => v.(stocks := s)
  }

  /** `variants[index].<field> = value`. */
  function ChangedAt(vs: seq<Variant>, index: int, e: VariantEdit): seq<Variant>
    requires 0 <= index < |vs|
  {
    vs[index := ApplyToVariant(vs[index], e)]
  }

  // ---------------------------------------------------------------------
  // Properties of the edits
  // ---------------------------------------------------------------------

  /** Adding yields a list one longer whose last element is blank and whose
      earlier elements are the old ones; deleting that last element again
      gives back the original list. */
  lemma AddedProperties(vs: seq<Variant>)
    ensures |Added(vs)| == |vs| + 1
    ensures Added(vs)[|vs|] == BlankVariant
    ensures forall j :: 0 <= j < |vs| ==> Added(vs)[j] == vs[j]
    ensures |vs| >= 1 ==> Deleted(Added(vs), |vs|) == vs
  {
    if |vs| >= 1 {
      assert Added(vs)[..|vs|] == vs;
    }
  }

  /** Deleting from a one-element list changes nothing. */
  lemma DeleteLastRemainingIsNoOp(vs: seq<Variant>, index: int)
    requires |vs| == 1
    ensures Deleted(vs, index) == vs
  {
  }

  /** Deleting index `i` of a longer list removes exactly that element and
      keeps the others in order. */
  lemma DeleteRemovesExactlyOne(vs: seq<Variant>, i: int)
    requires |vs| > 1 && 0 <= i < |vs|
    ensures |Deleted(vs, i)| == |vs| - 1
    ensures forall j :: 0 <= j < i ==> Deleted(vs, i)[j] == vs[j]
    ensures forall j :: i <= j < |vs| - 1 ==> Deleted(vs, i)[j] == vs[j + 1]
    ensures multiset(Deleted(vs, i)) + multiset{vs[i]} == multiset(vs)
  {
    assert vs == vs[..i] + [vs[i]] + vs[i + 1..];
  }

  /** A delete never removes more than one element. */
  lemma DeletedLength(vs: seq<Variant>, index: int)
    ensures |Deleted(vs, index)| >= |vs| - 1
    ensures |vs| >= 1 ==> |Deleted(vs, index)| >= 1
  {
  }

  /** A field change touches only the named field of variant `index`. */
  lemma ChangedAtTouchesOneField(vs: seq<Variant>, index: int, e: VariantEdit)
    requires 0 <= index < |vs|
    ensures |ChangedAt(vs, index, e)| == |vs|
    ensures forall j :: 0 <= j < |vs| && j != index ==> ChangedAt(vs, index, e)[j] == vs[j]
    ensures var v, w := vs[index], ChangedAt(vs, index, e)[index];
      w.kind == (if e.SetKind? then e.kind else v.kind) &&
      w.price == (if e.SetPrice? then e.price else v.price) &&
      w.cost == (if e.SetCost? then e.cost else v.cost) &&
      w.stocks == (if e.SetStocks? then e.stocks else v.stocks)
  {
  }

  /** The add and delete buttons of the variant list. */
  datatype ListEdit = Add | Delete(index: int)

  function ApplyListEdit(vs: seq<Variant>, e: ListEdit): seq<Variant> {
    match e
    case Add => Added(vs)
    case Delete(i) => Deleted(vs, i)
  }

  function ApplyListEdits(vs: seq<Variant>, edits: seq<ListEdit>): seq<Variant>
    decreases |edits|
  {
    if edits == [] then vs else ApplyListEdits(ApplyListEdit(vs, edits[0]), edits[1..])
  }

  /** Starting from a non-empty list, no sequence of adds and deletes makes
      the variant list empty. */
  lemma {:induction false} ListEditsKeepNonEmpty(vs: seq<Variant>, edits: seq<ListEdit>)
    requires |vs| >= 1
    ensures |ApplyListEdits(vs, edits)| >= 1
    decreases |edits|
  {
    if edits != [] {
      var next := ApplyListEdit(vs, edits[0]);
      DeletedLength(vs, if edits[0].Delete? then edits[0].index else 0);
      ListEditsKeepNonEmpty(next, edits[1..]);
    }
  }
}
