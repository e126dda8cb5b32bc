/**
 * The items page: it flattens the stored items into one table row per
 * size, rebuilds a draft from a stored item for editing, and turns a
 * submitted draft into a store write. Store reads arrive as parameters and
 * writes leave as `StoreWrite` values.
 */
module ItemsPage {
  import opened Wrappers
  import opened Drafts
  import opened Text

  /** An item as stored under `items/<key>`. The top-level price, cost and
      stocks are only read back when the item is not single-sized. */
  datatype StoredItem = StoredItem(
    category: string,
    name: string,
    isSingleSized: bool,
    sizes: seq<Variant>,
    price: int,
    cost: int,
    stocks: int)

  /** One key of the `items` snapshot with its stored item, in the order
      `Object.keys` lists them. */
  type Entry = (string, StoredItem)

  /** One row of the items table. */
  datatype Row = Row(
    id: string,
    firebaseId: string,
    category: string,
    name: string,
    size: string,
    price: int,
    cost: int,
    stocks: int)

  /** The record written to the store. */
  datatype ItemPayload = ItemPayload(category: string, name: string, isSingleSized: bool, sizes: seq<Variant>)

  /** A store write: `push` under `items`, or `set` at `items/<key>`. */
  datatype StoreWrite =
    | Create(payload: ItemPayload)
    | Update(key: string, payload: ItemPayload)

  // ---------------------------------------------------------------------
  // Row ids
  // ---------------------------------------------------------------------

  predicate IsDigit(c: char) { '0' <= c <= '9' }

  function DigitChar(d: nat): (c: char)
    requires d < 10
    ensures IsDigit(c)
  {
    ('0' as int + d) as char
  }

  /** A number as JavaScript's string concatenation writes it. */
  function DecimalString(n: nat): (s: string)
    ensures |s| >= 1
    ensures forall j :: 0 <= j < |s| ==> IsDigit(s[j])
    ensures n < 10 <==> |s| == 1
  {
    if n < 10 then [DigitChar(n)] else DecimalString(n / 10) + [DigitChar(n % 10)]
  }

  /** Different numbers are written differently. */
  lemma {:induction false} DecimalStringInjective(a: nat, b: nat)
    requires DecimalString(a) == DecimalString(b)
    ensures a == b
  {
    if a >= 10 {
      var s := DecimalString(a);
      assert s[..|s| - 1] == DecimalString(a / 10) && s[..|s| - 1] == DecimalString(b / 10);
      DecimalStringInjective(a / 10, b / 10);
      assert DigitChar(a % 10) == s[|s| - 1] == DigitChar(b % 10);
    } else {
      assert DigitChar(a) == DigitChar(b);
    }
  }

  /** `k + '_' + i`. */
  function RowId(key: string, i: nat): string {
    key + "_" + DecimalString(i)
  }

  /** The number of digits a string ends with. */
  function TrailingDigits(s: string): nat {
    if s == [] || !IsDigit(s[|s| - 1]) then 0 else 1 + TrailingDigits(s[..|s| - 1])
  }

  lemma {:induction false} TrailingDigitsOfRowId(key: string, digits: string)
    requires forall j :: 0 <= j < |digits| ==> IsDigit(digits[j])
    ensures TrailingDigits(key + "_" + digits) == |digits|
  {
    var s := key + "_" + digits;
    if digits != [] {
      var shorter := digits[..|digits| - 1];
      assert s[..|s| - 1] == key + "_" + shorter;
      TrailingDigitsOfRowId(key, shorter);
    }
  }

  /** A row id determines the key and the size index it was built from,
      even when keys contain underscores or end in digits. */
  lemma RowIdInjective(k1: string, i1: nat, k2: string, i2: nat)
    requires RowId(k1, i1) == RowId(k2, i2)
    ensures k1 == k2 && i1 == i2
  {
    var s := RowId(k1, i1);
    var d1, d2 := DecimalString(i1), DecimalString(i2);
    TrailingDigitsOfRowId(k1, d1);
    TrailingDigitsOfRowId(k2, d2);
    assert |k1| == |k2|;
    assert k1 == s[..|k1|] == k2;
    assert d1 == s[|k1| + 1..] == d2;
    DecimalStringInjective(i1, i2);
  }

  // ---------------------------------------------------------------------
  // Flattening the snapshot
  // ---------------------------------------------------------------------

  /** The row for size `i` of the item stored under `key`. */
  function MakeRow(key: string, s: StoredItem, i: nat): Row
    requires i < |s.sizes|
  {
    Row(RowId(key, i), key, s.category, s.name, s.sizes[i].kind, s.sizes[i].price, s.sizes[i].cost, s.sizes[i].stocks)
  }

  /** `rowObj.sizes.map(...)`. */
  function RowsOf(key: string, s: StoredItem): seq<Row> {
    seq(|s.sizes|, i requires 0 <= i < |s.sizes| => MakeRow(key, s, i))
  }

  /** The rows of a snapshot: each entry's rows, in entry order. */
  function AllRows(entries: seq<Entry>): seq<Row> {
    if entries == [] then []
    else
      var n := |entries| - 1;
      AllRows(entries[..n]) + RowsOf(entries[n].0, entries[n].1)
  }

  /** The number of sizes over all entries. */
  function SizeCount(entries: seq<Entry>): nat {
    if entries == [] then 0
    else
      var n := |entries| - 1;
      SizeCount(entries[..n]) + |entries[n].1.sizes|
  }

  /** There are as many rows as sizes. */
  lemma {:induction false} RowCount(entries: seq<Entry>)
    ensures |AllRows(entries)| == SizeCount(entries)
  {
    if entries != [] {
      RowCount(entries[..|entries| - 1]);
    }
  }

  /** Entry `e`'s rows form one block that starts after the rows of the
      entries before it, and its row `i` is built from size `i`. */
  lemma {:induction false} RowAt(entries: seq<Entry>, e: nat, i: nat)
    requires e < |entries| && i < |entries[e].1.sizes|
    ensures SizeCount(entries[..e + 1]) == SizeCount(entries[..e]) + |entries[e].1.sizes|
    ensures SizeCount(entries[..e]) + i < |AllRows(entries)|
    ensures AllRows(entries)[SizeCount(entries[..e]) + i] == MakeRow(entries[e].0, entries[e].1, i)
  {
    var n := |entries| - 1;
    var init := entries[..n];
    assert entries[..e + 1][..e] == entries[..e];
    RowCount(init);
    RowCount(entries);
    if e == n {
      assert entries[..e] == init;
    } else {
      assert init[e] == entries[e] && init[..e] == entries[..e] && init[..e + 1] == entries[..e + 1];
      RowAt(init, e, i);
    }
  }

  /** When the snapshot's keys are distinct, two rows built from different
      (key, size) pairs have different ids. */
  lemma RowIdsUnique(entries: seq<Entry>, e1: nat, i1: nat, e2: nat, i2: nat)
    requires forall a, b :: 0 <= a < b < |entries| ==> entries[a].0 != entries[b].0
    requires e1 < |entries| && i1 < |entries[e1].1.sizes|
    requires e2 < |entries| && i2 < |entries[e2].1.sizes|
    ensures var rows := AllRows(entries);
      SizeCount(entries[..e1]) + i1 < |rows| && SizeCount(entries[..e2]) + i2 < |rows| &&
      (rows[SizeCount(entries[..e1]) + i1].id == rows[SizeCount(entries[..e2]) + i2].id ==> e1 == e2 && i1 == i2)
  {
    RowAt(entries, e1, i1);
    RowAt(entries, e2, i2);
    var rows := AllRows(entries);
    if rows[SizeCount(entries[..e1]) + i1].id == rows[SizeCount(entries[..e2]) + i2].id {
      RowIdInjective(entries[e1].0, i1, entries[e2].0, i2);
    }
  }

  /** Every row position belongs to exactly one (entry, size) pair. */
  lemma {:induction false} PositionOf(entries: seq<Entry>, p: nat) returns (e: nat, i: nat)
    requires p < SizeCount(entries)
    ensures e < |entries| && i < |entries[e].1.sizes|
    ensures p == SizeCount(entries[..e]) + i
  {
    var n := |entries| - 1;
    var init := entries[..n];
    if p < SizeCount(init) {
      e, i := PositionOf(init, p);
      assert init[..e] == entries[..e] && init[e] == entries[e];
    } else {
      assert entries[..n] == init;
      e, i := n, p - SizeCount(init);
    }
  }

  /** When the snapshot's keys are distinct, no two rows share an id. */
  lemma RowIdsDistinct(entries: seq<Entry>)
    requires forall a, b :: 0 <= a < b < |entries| ==> entries[a].0 != entries[b].0
    ensures forall p, q :: 0 <= p < q < |AllRows(entries)| ==> AllRows(entries)[p].id != AllRows(entries)[q].id
  {
    RowCount(entries);
    forall p, q | 0 <= p < q < |AllRows(entries)|
      ensures AllRows(entries)[p].id != AllRows(entries)[q].id
    {
      var e1, i1 := PositionOf(entries, p);
      var e2, i2 := PositionOf(entries, q);
      RowIdsUnique(entries, e1, i1, e2, i2);
    }
  }

  /** The snapshot listener's `forEach` loop, accumulating `itemRows`. */
  method FlattenSnapshot(data: seq<Entry>) returns (itemRows: seq<Row>)
    ensures itemRows == AllRows(data)
  {
    itemRows := [];
    var e := 0;
    while e < |data|
      invariant 0 <= e <= |data|
      invariant itemRows == AllRows(data[..e])
    {
      var (k, rowObj) := data[e];
      var row := seq(|rowObj.sizes|, i requires 0 <= i < |rowObj.sizes| => MakeRow(k, rowObj, i));
      assert data[..e + 1][..e] == data[..e];
      itemRows := itemRows + row;
      e := e + 1;
    }
    assert data[..e] == data;
  }

  // ---------------------------------------------------------------------
  // Editing and saving
  // ---------------------------------------------------------------------

  /** The draft `handleEditClick` builds from a stored item. It sets no
      error record, which the form reads like an empty one. */
  function EditDraft(id: string, s: StoredItem): Draft
    requires s.isSingleSized ==> |s.sizes| > 0
  {
    Draft(
      Some(id), s.category, s.name,
      if s.isSingleSized then s.sizes[0].price else s.price,
      if s.isSingleSized then s.sizes[0].cost else s.cost,
      if s.isSingleSized then s.sizes[0].stocks else s.stocks,
      s.sizes, s.isSingleSized, map[])
  }

  /** The sizes written for a draft: one synthetic "Default" size for a
      single-sized item, the variant list otherwise. */
  function PayloadSizes(d: Draft): seq<Variant> {
    if d.isSingleSized then [Variant("Default", d.price, d.cost, d.stocks)] else d.variants
  }

  function PayloadOf(d: Draft): ItemPayload {
    ItemPayload(d.category, CapitalizedFirst(d.name), d.isSingleSized, PayloadSizes(d))
  }

  /** The write `handleItemSubmitClick` issues: an update at the draft's key
      when an item is being edited (the key reads "undefined" when the draft
      has none), a new record otherwise. */
  function SubmitCommand(itemToUpdate: Option<Draft>, item: Draft): StoreWrite {
    if itemToUpdate.Some? then Update(item.firebaseId.GetOr("undefined"), PayloadOf(item))
    else Create(PayloadOf(item))
  }

  /** The payload copies the category and flag, stores the name title-cased
      (so saving it again leaves it as it is), and has one "Default" size
      holding the draft's own price, cost and stocks when single-sized, the
      variant list unchanged otherwise. */
  lemma PayloadFromDraft(d: Draft)
    ensures var p := PayloadOf(d);
      p.category == d.category && p.isSingleSized == d.isSingleSized &&
      CapitalizedFirst(p.name) == p.name &&
      |p.name| == |d.name| &&
      (forall i :: 0 <= i < |d.name| ==>
        p.name[i] == if i == 0 || d.name[i - 1] == ' ' then ToUpperChar(d.name[i]) else ToLowerChar(d.name[i])) &&
      (d.isSingleSized ==>
        |p.sizes| == 1 && p.sizes[0].kind == "Default" &&
        p.sizes[0].price == d.price && p.sizes[0].cost == d.cost && p.sizes[0].stocks == d.stocks) &&
      (!d.isSingleSized ==> p.sizes == d.variants)
  {
    CapitalizedFirstIdempotent(d.name);
    CapitalizedFirstChars(d.name);
  }

  /** A draft with an empty error record is written with sizes that all have
      a type and a non-zero price, and with at least one size when its
      variant list is non-empty. */
  lemma ValidDraftPayload(d: Draft)
    requires Validate(d) == map[]
    ensures forall j :: 0 <= j < |PayloadSizes(d)| ==>
      PayloadSizes(d)[j].kind != "" && PayloadSizes(d)[j].price != 0
    ensures |d.variants| >= 1 ==> |PayloadSizes(d)| >= 1
  {
    ValidateEmptyIff(d);
  }

  /** The page writes whatever the form hands it: the untouched initial
      draft, whose error record is not empty, is still pushed as a new item. */
  lemma InvalidDraftStillWritten()
    ensures Validate(InitialDraft) != map[]
    ensures SubmitCommand(None, InitialDraft).Create?
  {
    InitialDraftErrors();
    assert "name" in Validate(InitialDraft);
  }

  /** Saving an unchanged edit draft writes the stored item back at its own
      key, provided its name is already title-cased and, when single-sized,
      its sizes are the one "Default" entry that saving produces. Whatever
      error record the submit attached does not reach the store. */
  lemma SaveAfterEditRoundTrip(id: string, s: StoredItem, errs: ErrorMap)
    requires s.isSingleSized ==> |s.sizes| == 1 && s.sizes[0].kind == "Default"
    requires CapitalizedFirst(s.name) == s.name
    ensures var d := EditDraft(id, s);
      SubmitCommand(Some(d), d.(errors := errs)) == Update(id, ItemPayload(s.category, s.name, s.isSingleSized, s.sizes))
  {
    if s.isSingleSized {
      assert [Variant("Default", s.sizes[0].price, s.sizes[0].cost, s.sizes[0].stocks)] == s.sizes;
    }
  }

  /** A single-sized stored item keeps only its first size across an edit
      and save: the draft takes price, cost and stocks from it. */
  lemma SaveAfterEditSingleSized(id: string, s: StoredItem)
    requires s.isSingleSized && |s.sizes| > 0
    ensures SubmitCommand(Some(EditDraft(id, s)), EditDraft(id, s)).payload.sizes ==
      [s.sizes[0].(kind := "Default")]
  {
  }

  class ItemsView {
    /** The table rows. */
    var rows: seq<Row>
    var openEditModal: bool
    /** The draft being edited, if any. */
    var itemToUpdate: Option<Draft>

    constructor ()
      ensures rows == [] && !openEditModal && itemToUpdate == None
    {
      rows, openEditModal, itemToUpdate := [], false, None;
    }

    /** The `items` listener: a `null` snapshot leaves the rows as they are;
        otherwise the rows are replaced by the flattened snapshot. */
    method OnItemsSnapshot(data: Option<seq<Entry>>)
      modifies this`rows
      ensures rows == if data.None? then old(rows) else AllRows(data.value)
    {
      if data.None? {
        return;
      }
      var itemRows := FlattenSnapshot(data.value);
      rows := itemRows;
    }

    /** `handleEditClick`, given what the point read of `items/<id>` returned:
        missing details change nothing; otherwise the draft rebuilt from them
        is set up for editing and the modal opens. */
    method HandleEditClick(id: string, itemDetails: Option<StoredItem>)
      requires itemDetails.Some? && itemDetails.value.isSingleSized ==> |itemDetails.value.sizes| > 0
      modifies this
      ensures rows == old(rows)
      ensures itemDetails.None? ==> openEditModal == old(openEditModal) && itemToUpdate == old(itemToUpdate)
      ensures itemDetails.Some? ==> openEditModal && itemToUpdate == Some(EditDraft(id, itemDetails.value))
    {
      if itemDetails.None? {
        return;
      }
      itemToUpdate := Some(EditDraft(id, itemDetails.value));
      openEditModal := true;
    }

    /** Closing the modal; the effect on `openEditModal` then forgets the
        draft being edited. */
    method HandleCloseEditModal()
      modifies this
      ensures !openEditModal && itemToUpdate == None && rows == old(rows)
    {
      openEditModal := false;
      itemToUpdate := None;
    }

    /** `handleItemSubmitClick`: builds `itemSizes` and the payload, and
        chooses between update and create by whether an item is being edited. */
    method HandleItemSubmitClick(item: Draft) returns (write: StoreWrite)
      ensures write == SubmitCommand(itemToUpdate, item)
    {
      var itemSizes: seq<Variant> := [];
      if item.isSingleSized {
        itemSizes := itemSizes + [Variant("Default", item.price, item.cost, item.stocks)];
      } else {
        itemSizes := item.variants;
      }
      var payload := ItemPayload(item.category, CapitalizedFirst(item.name), item.isSingleSized, itemSizes);
      if itemToUpdate.Some? {
        write := Update(item.firebaseId.GetOr("undefined"), payload);
      } else {
        write := Create(payload);
      }
    }
  }
}
