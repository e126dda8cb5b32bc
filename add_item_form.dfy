/**
 * The stand-alone add-item page: its size vocabulary, the size selection
 * (sorted in place by id, then projected to titles), the form reset and the
 * record it pushes to the store.
 */
module AddItemFormPage {
  import opened Text

  /** One option of the size picker. */
  datatype SizeOption = SizeOption(id: int, title: string)

  /** The record pushed under `items`: sizes are plain titles here, and the
      top-level price, cost and stocks are stored too. */
  datatype NewItemRecord = NewItemRecord(
    category: string,
    name: string,
    isSingleSized: bool,
    sizes: seq<string>,
    price: int,
    stocks: int,
    cost: int)

  /** The vocabulary conversion: entry `i` becomes `{id: i, title: data[i]}`. */
  function ToSizeOptions(data: seq<string>): seq<SizeOption> {
    seq(|data|, i requires 0 <= i < |data| => SizeOption(i, data[i]))
  }

  /** `map((o) => o.title)`. */
  function Titles(options: seq<SizeOption>): seq<string> {
    seq(|options|, i requires 0 <= i < |options| => options[i].title)
  }

  predicate SortedById(s: seq<SizeOption>) {
    forall i, j :: 0 <= i < j < |s| ==> s[i].id <= s[j].id
  }

  /** The converted vocabulary is already in id order, its ids are exactly
      the positions, and projecting it to titles gives back the data. */
  lemma SizeOptionsProperties(data: seq<string>)
    ensures |ToSizeOptions(data)| == |data|
    ensures forall i :: 0 <= i < |data| ==> ToSizeOptions(data)[i].id == i
    ensures SortedById(ToSizeOptions(data))
    ensures Titles(ToSizeOptions(data)) == data
  {
  }

  /** Removing the element at `j` takes exactly one copy of it out of the
      multiset. */
  lemma MultisetRemoveAt<T>(t: seq<T>, j: nat)
    requires j < |t|
    ensures multiset(t[..j] + t[j + 1..]) == multiset(t) - multiset{t[j]}
  {
    assert t == t[..j] + ([t[j]] + t[j + 1..]);
  }

  /** Dropping an option drops its title at the same position. */
  lemma TitlesDrop(t: seq<SizeOption>, j: nat)
    requires j < |t|
    ensures Titles(t[..j] + t[j + 1..]) == Titles(t)[..j] + Titles(t)[j + 1..]
  {
  }

  lemma TitlesRemoveAt(t: seq<SizeOption>, j: nat)
    requires j < |t|
    ensures multiset(Titles(t)) == multiset(Titles(t[..j] + t[j + 1..])) + multiset{t[j].title}
  {
    TitlesDrop(t, j);
    MultisetRemoveAt(Titles(t), j);
    assert Titles(t)[j] in multiset(Titles(t));
  }

  lemma TitlesCons(s: seq<SizeOption>)
    requires s != []
    ensures Titles(s) == [s[0].title] + Titles(s[1..])
  {
  }

  /** Taking the first option off. */
  lemma HeadStep(s: seq<SizeOption>)
    requires s != []
    ensures multiset(s[1..]) == multiset(s) - multiset{s[0]}
    ensures multiset(Titles(s)) == multiset(Titles(s[1..])) + multiset{s[0].title}
  {
    assert s == [s[0]] + s[1..];
    TitlesCons(s);
  }

  /** Taking one copy of `x` out of `t`, wherever it is. */
  lemma PickStep(t: seq<SizeOption>, x: SizeOption) returns (rest: seq<SizeOption>)
    requires x in multiset(t)
    ensures multiset(rest) == multiset(t) - multiset{x}
    ensures multiset(Titles(t)) == multiset(Titles(rest)) + multiset{x.title}
  {
    assert x in t;
    var j :| 0 <= j < |t| && t[j] == x;
    rest := t[..j] + t[j + 1..];
    MultisetRemoveAt(t, j);
    TitlesRemoveAt(t, j);
  }

  /** Reordering the options reorders their titles the same way. */
  lemma {:induction false} TitlesOfPermutation(s: seq<SizeOption>, t: seq<SizeOption>)
    requires multiset(s) == multiset(t)
    ensures multiset(Titles(s)) == multiset(Titles(t))
    decreases |s|
  {
    if s == [] {
      assert |t| == |multiset(t)| == 0;
    } else {
      HeadStep(s);
      var rest := PickStep(t, s[0]);
      TitlesOfPermutation(s[1..], rest);
    }
  }

  predicate SortedUpTo(a: array<SizeOption>, n: int)
    reads a
    requires n <= a.Length
  {
    forall p, q :: 0 <= p < q < n ==> a[p].id <= a[q].id
  }

  /** Exchanges two neighbouring elements. */
  method SwapDown(a: array<SizeOption>, j: int)
    requires 0 < j < a.Length
    modifies a
    ensures a[..] == old(a[..])[j - 1 := old(a[j])][j := old(a[j - 1])]
    ensures multiset(a[..]) == multiset(old(a[..]))
  {
    a[j - 1], a[j] := a[j], a[j - 1];
  }

  /** One pass of insertion: the element at `i` sinks into the sorted prefix. */
  method InsertInto(a: array<SizeOption>, i: int)
    requires 0 <= i < a.Length && SortedUpTo(a, i)
    modifies a
    ensures SortedUpTo(a, i + 1)
    ensures multiset(a[..]) == multiset(old(a[..]))
  {
    var j := i;
    while j > 0 && a[j - 1].id > a[j].id
      invariant 0 <= j <= i
      invariant forall p, q :: 0 <= p < q <= i && p != j && q != j ==> a[p].id <= a[q].id
      invariant forall q :: j < q <= i ==> a[j].id <= a[q].id
      invariant 0 < j < i ==> a[j - 1].id <= a[j + 1].id
      invariant multiset(a[..]) == multiset(old(a[..]))
    {
      SwapDown(a, j);
      j := j - 1;
    }
  }

  /** `value.sort((a, b) => a.id - b.id)`: the array is reordered in place
      into ascending id order. */
  method SortById(a: array<SizeOption>)
    modifies a
    ensures SortedById(a[..])
    ensures multiset(a[..]) == multiset(old(a[..]))
  {
    var i := 0;
    while i < a.Length
      invariant 0 <= i <= a.Length
      invariant SortedUpTo(a, i)
      invariant multiset(a[..]) == multiset(old(a[..]))
    {
      InsertInto(a, i);
      i := i + 1;
    }
  }

  class AddItemForm {
    var categories: seq<string>
    /** The size vocabulary. */
    var sizes: seq<SizeOption>
    var isSingleSized: bool
    var isLoading: bool
    var category: string
    var name: string
    var price: int
    var cost: int
    var stocks: int
    /** The titles of the chosen sizes. */
    var selectedSizes: seq<string>

    /** The fields `clearItemForm` resets hold their initial values. */
    predicate IsCleared()
      reads this
    {
      category == "" && name == "" && price == 0 && cost == 0 && stocks == 0 &&
      selectedSizes == [] && isSingleSized
    }

    constructor ()
      ensures IsCleared()
      ensures categories == [] && sizes == [] && !isLoading
    {
      categories, sizes := [], [];
      isSingleSized, isLoading := true, false;
      category, name := "", "";
      price, cost, stocks := 0, 0, 0;
      selectedSizes := [];
    }

    /** The `sizes` listener: the vocabulary becomes the converted snapshot. */
    method OnSizesSnapshot(data: seq<string>)
      modifies this`sizes
      ensures sizes == ToSizeOptions(data)
    {
      sizes := ToSizeOptions(data);
    }

    /** `handleSelectedSizeChange`: the picker's value array is sorted in
        place, and the selection becomes its titles in ascending id order; it
        holds the chosen titles, each as often as it was chosen. */
    method HandleSelectedSizeChange(value: array<SizeOption>)
      modifies this`selectedSizes, value
      ensures SortedById(value[..])
      ensures multiset(value[..]) == multiset(old(value[..]))
      ensures selectedSizes == Titles(value[..])
      ensures |selectedSizes| == value.Length
      ensures multiset(selectedSizes) == multiset(Titles(old(value[..])))
    {
      SortById(value);
      TitlesOfPermutation(value[..], old(value[..]));
      selectedSizes := Titles(value[..]);
    }

    /** `clearItemForm`: the form fields go back to their initial values;
        the vocabularies and the loading flag are left alone. */
    method ClearItemForm()
      modifies this
      ensures IsCleared()
      ensures categories == old(categories) && sizes == old(sizes) && isLoading == old(isLoading)
    {
      category := "";
      name := "";
      price := 0;
      cost := 0;
      stocks := 0;
      selectedSizes := [];
      isSingleSized := true;
    }

    /** `handleSaveClick`: the form turns to loading and the record to push
        is built from the fields, with the name title-cased. */
    method HandleSaveClick() returns (record: NewItemRecord)
      modifies this`isLoading
      ensures isLoading
      ensures record == NewItemRecord(category, CapitalizedFirst(name), isSingleSized, selectedSizes, price, stocks, cost)
    {
      isLoading := true;
      record := NewItemRecord(category, CapitalizedFirst(name), isSingleSized, selectedSizes, price, stocks, cost);
    }
  }
}
