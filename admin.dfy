/**
 * The admin page: the category list, the artwork form with create and update,
 * status changes, deletion, and the target size of an uploaded photo.
 *
 * The remote `artworks` collection is a map from document id to record and the
 * `settings/categories` document is its `list`. A write that the page awaits is
 * taken to be visible in the page's own state once it succeeds; whether the
 * remote call succeeds is a parameter (`writeOk`), as is the user's answer to a
 * confirmation dialog.
 */
module Admin {
  import opened Text
  import opened Catalog
  import opened Wrappers

  // ---------------------------------------------------------------------------
  // The category list

  /**
   * The list `handleAddCategory` writes: the trimmed name is appended unless
   * it is empty or already listed (exact, case-sensitive comparison).
   * The old list is always a prefix of the new one, at most one name is added, and
   * a list without duplicates stays without duplicates.
   */
  function AppendCategory(list: seq<string>, name: string): (r: seq<string>)
    ensures list <= r && |r| <= |list| + 1
    ensures Trim(name) == "" || Trim(name) in list ==> r == list
    ensures Trim(name) != "" ==> Trim(name) in r
    ensures r != list ==> r == list + [Trim(name)] && Trim(name) !in list
    ensures NoDup(list) ==> NoDup(r)
  {
    var clean := Trim(name);
    if clean == "" || clean in list then list else list + [clean]
  }

  /** A name made only of white space (the empty name included) is never added. */
  lemma BlankNameRejected(list: seq<string>, name: string)
    requires forall i :: 0 <= i < |name| ==> IsSpace(name[i])
    ensures AppendCategory(list, name) == list
  {
    TrimBlank(name);
  }

  /** Adding a name that is already listed after trimming changes nothing. */
  lemma ExistingNameRejected(list: seq<string>, name: string)
    requires Trim(name) in list
    ensures AppendCategory(list, name) == list
  {
  }

  /** The list `handleRemoveCategory` writes: every occurrence of `name` taken out. */
  function DropCategory(list: seq<string>, name: string): (r: seq<string>)
    ensures name !in r
    ensures |r| <= |list|
  {
    if list == [] then []
    else (if list[0] == name then [] else [list[0]]) + DropCategory(list[1..], name)
  }

  /** Every other name is kept as many times as it was listed. */
  lemma {:induction false} DropCounts(list: seq<string>, name: string)
    ensures forall c :: c != name ==> multiset(DropCategory(list, name))[c] == multiset(list)[c]
    ensures |DropCategory(list, name)| == |list| - multiset(list)[name]
  {
    if list != [] {
      DropCounts(list[1..], name);
      assert list == [list[0]] + list[1..];
    }
  }

  /** Removing keeps the remaining names in their order: it distributes over concatenation. */
  lemma {:induction false} DropAppend(a: seq<string>, b: seq<string>, name: string)
    ensures DropCategory(a + b, name) == DropCategory(a, name) + DropCategory(b, name)
  {
    if a == [] {
      assert a + b == b;
    } else {
      var ab := a + b;
      assert ab[0] == a[0] && ab[1..] == a[1..] + b;
      var head := if a[0] == name then [] else [a[0]];
      assert DropCategory(ab, name) == head + DropCategory(a[1..] + b, name);
      DropAppend(a[1..], b, name);
      assert DropCategory(a, name) == head + DropCategory(a[1..], name);
    }
  }

  /** Removing an absent name leaves the list exactly as it was. */
  lemma {:induction false} DropAbsent(list: seq<string>, name: string)
    requires name !in list
    ensures DropCategory(list, name) == list
  {
    if list != [] {
      DropAbsent(list[1..], name);
    }
  }

  /** In a list without duplicates, removing a name closes the gap it leaves. */
  lemma DropFromMiddle(a: seq<string>, name: string, b: seq<string>)
    requires NoDup(a + [name] + b)
    ensures DropCategory(a + [name] + b, name) == a + b
  {
    OnlyOnce(a, name, b);
    DropAround(a, name, b);
  }

  /** Removing `name` from `a + [name] + b` when neither `a` nor `b` holds it. */
  lemma DropAround(a: seq<string>, name: string, b: seq<string>)
    requires name !in a && name !in b
    ensures DropCategory(a + [name] + b, name) == a + b
  {
    var tail := [name] + b;
    assert a + [name] + b == a + tail;
    DropAppend(a, tail, name);
    DropAbsent(a, name);
    assert tail[0] == name && tail[1..] == b;
    assert DropCategory(tail, name) == DropCategory(b, name);
    DropAbsent(b, name);
  }

  /** A name listed at one position of a list without duplicates occurs nowhere else. */
  lemma OnlyOnce(a: seq<string>, name: string, b: seq<string>)
    requires NoDup(a + [name] + b)
    ensures name !in a && name !in b
  {
    var l := a + [name] + b;
    assert l[|a|] == name;
    forall i | 0 <= i < |a| ensures a[i] != name {
      assert l[i] == a[i];
    }
    forall i | 0 <= i < |b| ensures b[i] != name {
      assert l[|a| + 1 + i] == b[i];
    }
  }

  /** Removing a name just added gives back the list from before the add. */
  lemma AddThenDrop(list: seq<string>, name: string)
    requires Trim(name) !in list
    ensures DropCategory(AppendCategory(list, name), Trim(name)) == list
  {
    var clean := Trim(name);
    DropAbsent(list, clean);
    if clean != "" {
      DropAppend(list, [clean], clean);
      assert DropCategory([clean], clean) == [] by {
        assert [clean][1..] == [];
      }
    }
  }

  // ---------------------------------------------------------------------------
  // The record written by handleSave

  /**
   * The `data` object `handleSave` builds: the form's text fields, the parsed
   * price, the save time, and the encoded image when one was chosen.
   */
  datatype Draft = Draft(
    title: string,
    description: string,
    dimensions: string,
    price: real,
    category: string,
    date: int,
    image: Option<string>)

  /**
   * `addDoc`: a new record with the draft's fields, the image, and the status
   * `disponivel`.
   */
  function Created(id: string, d: Draft): (r: Artwork)
    requires d.image.Some?
    ensures r.id == id && r.status == Available && r.image == d.image.value
    ensures r.title == d.title && r.description == d.description && r.dimensions == d.dimensions
    ensures r.price == d.price && r.category == d.category && r.date == d.date
  {
    Artwork(id, d.title, d.description, d.dimensions, d.price, d.category, Available, d.image.value, d.date)
  }

  /**
   * `updateDoc`: the draft's fields overwrite the record's, the date included;
   * the id and the status are kept, and so is the image unless a new one was
   * encoded.
   */
  function Updated(rec: Artwork, d: Draft): (r: Artwork)
    ensures r.id == rec.id && r.status == rec.status
    ensures r.image == if d.image.Some? then d.image.value else rec.image
    ensures r.title == d.title && r.description == d.description && r.dimensions == d.dimensions
    ensures r.price == d.price && r.category == d.category && r.date == d.date
  {
    rec.(title := d.title, description := d.description, dimensions := d.dimensions,
         price := d.price, category := d.category, date := d.date,
         image := if d.image.Some? then d.image.value else rec.image)
  }

  /** Saving the same draft twice has the effect of saving it once. */
  lemma UpdateIdempotent(rec: Artwork, d: Draft)
    ensures Updated(Updated(rec, d), d) == Updated(rec, d)
  {
  }

  /**
   * A later save wins over an earlier one, field by field; the earlier image
   * survives only when the later save carries none.
   */
  lemma LaterUpdateWins(rec: Artwork, d1: Draft, d2: Draft)
    ensures Updated(Updated(rec, d1), d2)
         == if d2.image.Some? then Updated(rec, d2) else Updated(rec, d2.(image := d1.image))
  {
  }

  /** The record after the drafts `ds` were saved over it, in order. */
  function ApplyAll(rec: Artwork, ds: seq<Draft>): Artwork {
    if ds == [] then rec else Updated(ApplyAll(rec, ds[..|ds| - 1]), ds[|ds| - 1])
  }

  /** No sequence of saves changes a record's status. */
  lemma {:induction false} UpdatesKeepStatus(rec: Artwork, ds: seq<Draft>)
    ensures ApplyAll(rec, ds).status == rec.status && ApplyAll(rec, ds).id == rec.id
  {
    if ds != [] {
      UpdatesKeepStatus(rec, ds[..|ds| - 1]);
    }
  }

  /**
   * The price text as `parseFloat` receives it: only the first comma becomes
   * a point.
   */
  function PriceSource(text: string): (r: string)
    ensures |r| == |text|
    ensures ',' !in text ==> r == text
    ensures ',' in text ==> r[IndexOf(text, ',')] == '.' && ',' !in r[..IndexOf(text, ',')]
    ensures forall i :: 0 <= i < |text| && i != IndexOf(text, ',') ==> r[i] == text[i]
  {
    ReplaceFirstAbsentOrFirst(text);
    ReplaceFirst(text, ',', '.')
  }

  lemma ReplaceFirstAbsentOrFirst(text: string)
    ensures ',' !in text ==> ReplaceFirst(text, ',', '.') == text
    ensures ',' in text ==> ',' !in ReplaceFirst(text, ',', '.')[..IndexOf(text, ',')]
  {
    var r := ReplaceFirst(text, ',', '.');
    if ',' !in text {
      ReplaceFirstAbsent(text, ',', '.');
    } else {
      var k := IndexOf(text, ',');
      assert forall i :: 0 <= i < k ==> r[..k][i] == text[..k][i];
      assert r[..k] == text[..k];
    }
  }

  /** Text before the first comma is kept, the comma becomes a point, and everything after it is kept. */
  lemma FirstCommaOnly(p: string, q: string)
    requires ',' !in p
    ensures PriceSource(p + [','] + q) == p + ['.'] + q
  {
    var s := p + [','] + q;
    var k := IndexOf(s, ',');
    assert s[|p|] == ',';
    assert k == |p|;
    var r, e := PriceSource(s), p + ['.'] + q;
    assert |r| == |e|;
    forall i | 0 <= i < |r| ensures r[i] == e[i] {
      if i < |p| {
        assert e[i] == p[i] == s[i];
      } else if i > |p| {
        assert e[i] == q[i - |p| - 1] == s[i];
      }
    }
  }

  /** "1,234,50" is read as "1.234,50": the second comma stays. */
  lemma SecondCommaKept()
    ensures PriceSource("1,234,50") == "1.234,50"
  {
    assert "1" + [','] + "234,50" == "1,234,50";
    FirstCommaOnly("1", "234,50");
    assert "1" + ['.'] + "234,50" == "1.234,50";
  }

  // ---------------------------------------------------------------------------
  // The photo's target size

  const MaxWidth: nat := 800

  /**
   * The size `handleFileChange` draws the photo at: a photo wider than 800 is
   * scaled down to width 800 with its height scaled by the same factor, so the
   * aspect ratio is kept exactly; any other photo keeps its size.
   */
  method TargetSize(imgWidth: nat, imgHeight: nat) returns (width: real, height: real)
    ensures width <= MaxWidth as real
    ensures imgWidth > MaxWidth ==> width == MaxWidth as real
    ensures imgWidth <= MaxWidth ==> width == imgWidth as real && height == imgHeight as real
    ensures height * (imgWidth as real) == (imgHeight as real) * width
    ensures 0.0 <= height <= imgHeight as real
  {
    width := imgWidth as real;
    height := imgHeight as real;
    if width > MaxWidth as real {
      height := height * (MaxWidth as real / width);
      width := MaxWidth as real;
    }
  }

  /** The sizes a canvas has when none is set, or when a set value is out of range. */
  const CanvasDefaultWidth: nat := 300
  const CanvasDefaultHeight: nat := 150

  /**
   * A canvas dimension after `canvas.width = x` (or `height`): the attribute is
   * an `unsigned long`, so the number is truncated and taken modulo 2^32, and a
   * value above 2147483647 is replaced by the attribute's default.
   */
  function CanvasExtent(x: real, default: nat): (n: nat)
    requires x >= 0.0
    ensures n < 0x8000_0000 || n == default
    ensures x < 0x8000_0000 as real ==> n as real <= x < n as real + 1.0
    ensures 0x8000_0000 <= x.Floor % 0x1_0000_0000 ==> n == default
  {
    var v := x.Floor % 0x1_0000_0000;
    if v < 0x8000_0000 then v else default
  }

  /**
   * The canvas the photo is drawn on (`handleFileChange`): the target size,
   * then that size truncated by the canvas. Its width is the photo's width up
   * to 800 and 800 beyond; its height is the integer part of the scaled
   * height, never more than the photo's, and the photo's own height when the
   * photo is at most 800 wide.
   */
  method CanvasSize(imgWidth: nat, imgHeight: nat) returns (width: real, height: real, canvasWidth: nat, canvasHeight: nat)
    ensures height * (imgWidth as real) == (imgHeight as real) * width
    ensures canvasWidth == if imgWidth > MaxWidth then MaxWidth else imgWidth
    ensures canvasWidth as real == width
    ensures imgHeight < 0x8000_0000 ==> canvasHeight as real <= height < canvasHeight as real + 1.0
    ensures imgHeight < 0x8000_0000 ==> canvasHeight <= imgHeight
    ensures imgWidth <= MaxWidth && imgHeight < 0x8000_0000 ==> canvasHeight == imgHeight
  {
    width, height := TargetSize(imgWidth, imgHeight);
    canvasWidth := CanvasExtent(width, CanvasDefaultWidth);
    canvasHeight := CanvasExtent(height, CanvasDefaultHeight);
  }

  // ---------------------------------------------------------------------------
  // The page's state

  /** `Incomplete`: the browser refused to submit a form whose `required` fields are empty. */
  datatype SaveOutcome = SavedEdit | Published(id: string) | MissingImage | WriteFailed | Incomplete

  class AdminPanel {
    var store: map<string, Artwork>
    var categories: seq<string>
    var isEditing: Option<string>
    var title: string
    var description: string
    var dimensions: string
    var price: string
    var category: string
    var imageEncoded: Option<string>
    var fileName: string
    var newCategoryName: string

    /** Every stored record carries its own document id. */
    ghost predicate Valid()
      reads this
    {
      forall id :: id in store ==> store[id].id == id
    }

    /** `isEditing` is truthy. */
    predicate Editing()
      reads this
    {
      isEditing.Some? && isEditing.value != ""
    }

    /** `imageEncoded` is truthy. */
    predicate HasImage()
      reads this
    {
      imageEncoded.Some? && imageEncoded.value != ""
    }

    predicate FormCleared()
      reads this
    {
      && title == "" && description == "" && dimensions == "" && price == ""
      && category == "" && imageEncoded.None? && fileName == "" && isEditing.None?
    }

    /**
     * The `data` object of `handleSave`, with `parseFloat` and the current time
     * given: the form's text fields, the price as parsed after the first comma
     * became a point, the save time, and an image exactly when one is encoded.
     */
    function FormDraft(now: int, parseFloat: string -> real): (d: Draft)
      reads this
      ensures d.title == title && d.description == description && d.dimensions == dimensions
      ensures d.category == category && d.date == now
      ensures d.price == parseFloat(PriceSource(price))
      ensures d.image.Some? <==> HasImage()
      ensures d.image.Some? ==> Some(d.image.value) == imageEncoded
    {
      Draft(title, description, dimensions, parseFloat(PriceSource(price)), category, now,
            if HasImage() then Some(imageEncoded.value) else None)
    }

    constructor (initial: map<string, Artwork>, list: seq<string>)
      requires forall id :: id in initial ==> initial[id].id == id
      ensures Valid() && store == initial && categories == list
      ensures FormCleared() && newCategoryName == ""
    {
      store, categories := initial, list;
      isEditing := None;
      title, description, dimensions, price, category := "", "", "", "", "";
      imageEncoded, fileName, newCategoryName := None, "", "";
    }

    /** `clearForm`: every form field empty, no image, not editing. */
    method ClearForm()
      modifies this
      ensures FormCleared()
      ensures store == old(store) && categories == old(categories) && newCategoryName == old(newCategoryName)
    {
      title, description, dimensions, price, category := "", "", "", "", "";
      imageEncoded, fileName := None, "";
      isEditing := None;
    }

    /**
     * `handleEditClick`: the form is filled from the record (`Number#toString`
     * given as `show`) and editing starts; an image already encoded stays.
     */
    method EditClick(item: Artwork, show: real -> string)
      modifies this
      ensures isEditing == Some(item.id)
      ensures title == item.title && description == item.description && dimensions == item.dimensions
      ensures price == show(item.price) && category == item.category
      ensures fileName == "Imagem atual preservada"
      ensures imageEncoded == old(imageEncoded)
      ensures store == old(store) && categories == old(categories) && newCategoryName == old(newCategoryName)
    {
      isEditing := Some(item.id);
      title, description, dimensions := item.title, item.description, item.dimensions;
      price, category := show(item.price), item.category;
      fileName := "Imagem atual preservada";
    }

    /** A file was picked: its name is shown. */
    method ChooseFile(name: string)
      modifies this`fileName
      ensures fileName == name
    {
      fileName := name;
    }

    /** The image callback of `handleFileChange` delivers the encoded photo. */
    method ReceiveEncodedImage(data: string)
      modifies this`imageEncoded
      ensures imageEncoded == Some(data)
    {
      imageEncoded := Some(data);
    }

    /**
     * `handleSave`. Editing: the record is overwritten by the draft when the
     * update succeeds (a missing document fails, as `updateDoc` does).
     * Creating: no image fails before any write; otherwise a record is added
     * under the fresh id the store assigns. A successful save clears the form;
     * a failed one changes nothing.
     */
    method Save(now: int, parseFloat: string -> real, freshId: string, writeOk: bool) returns (outcome: SaveOutcome)
      requires Valid()
      requires freshId !in store
      modifies this
      ensures Valid()
      ensures old(Editing()) ==>
        outcome == (if writeOk && old(isEditing.value) in old(store) then SavedEdit else WriteFailed)
      ensures !old(Editing()) ==>
        outcome == (if !old(HasImage()) then MissingImage else if writeOk then Published(freshId) else WriteFailed)
      ensures outcome == SavedEdit ==>
        store == old(store)[old(isEditing.value) := Updated(old(store)[old(isEditing.value)], old(FormDraft(now, parseFloat)))]
      ensures outcome == Published(freshId) ==>
        store == old(store)[freshId := Created(freshId, old(FormDraft(now, parseFloat)))]
      ensures outcome.SavedEdit? || outcome.Published? ==>
        FormCleared() && categories == old(categories) && newCategoryName == old(newCategoryName)
      ensures outcome == MissingImage || outcome == WriteFailed ==> unchanged(this)
    {
      var data := FormDraft(now, parseFloat);
      if Editing() {
        var id := isEditing.value;
        if writeOk && id in store {
          store := store[id := Updated(store[id], data)];
          outcome := SavedEdit;
        } else {
          return WriteFailed;
        }
      } else {
        if !HasImage() {
          return MissingImage;
        }
        if !writeOk {
          return WriteFailed;
        }
        store := store[freshId := Created(freshId, data)];
        outcome := Published(freshId);
      }
      ClearForm();
    }

    /** The `required` title, price and category fields are filled in. */
    predicate RequiredFilled()
      reads this
    {
      title != "" && price != "" && category != ""
    }

    /**
     * Submitting the form: the browser runs `handleSave` only when the
     * `required` fields are filled in, and otherwise nothing happens.
     */
    method Submit(now: int, parseFloat: string -> real, freshId: string, writeOk: bool) returns (outcome: SaveOutcome)
      requires Valid()
      requires freshId !in store
      modifies this
      ensures Valid()
      ensures outcome == Incomplete <==> !old(RequiredFilled())
      ensures outcome == Incomplete ==> unchanged(this)
      ensures old(RequiredFilled()) && old(Editing()) ==>
        outcome == (if writeOk && old(isEditing.value) in old(store) then SavedEdit else WriteFailed)
      ensures old(RequiredFilled()) && !old(Editing()) ==>
        outcome == (if !old(HasImage()) then MissingImage else if writeOk then Published(freshId) else WriteFailed)
      ensures outcome == SavedEdit ==>
        store == old(store)[old(isEditing.value) := Updated(old(store)[old(isEditing.value)], old(FormDraft(now, parseFloat)))]
      ensures outcome == Published(freshId) ==>
        store == old(store)[freshId := Created(freshId, old(FormDraft(now, parseFloat)))]
      ensures outcome.SavedEdit? || outcome.Published? ==>
        FormCleared() && categories == old(categories) && newCategoryName == old(newCategoryName)
      ensures outcome == MissingImage || outcome == WriteFailed ==> unchanged(this)
    {
      if !RequiredFilled() {
        return Incomplete;
      }
      outcome := Save(now, parseFloat, freshId, writeOk);
    }

    /**
     * `updateStatus`: only the chosen record's status changes; any value may
     * follow any other. Updating a missing document fails.
     */
    method UpdateStatus(id: string, newStatus: string, writeOk: bool) returns (ok: bool)
      requires Valid()
      modifies this`store
      ensures Valid()
      ensures ok == (writeOk && id in old(store))
      ensures store == if ok then old(store)[id := old(store)[id].(status := newStatus)] else old(store)
    {
      ok := writeOk && id in store;
      if ok {
        store := store[id := store[id].(status := newStatus)];
      }
    }

    /** `handleDeleteItem`: the record goes only after confirmation and a successful write. */
    method DeleteItem(id: string, confirmed: bool, writeOk: bool)
      requires Valid()
      modifies this`store
      ensures Valid()
      ensures store == if confirmed && writeOk then old(store) - {id} else old(store)
    {
      if confirmed && writeOk {
        store := store - {id};
      }
    }

    /**
     * `handleAddCategory`. A blank or listed name is dropped without a write;
     * otherwise the trimmed name is appended once the write succeeds and the
     * input box is emptied.
     */
    method AddCategory(writeOk: bool) returns (added: bool)
      modifies this`categories, this`newCategoryName
      ensures added == (writeOk && AppendCategory(old(categories), old(newCategoryName)) != old(categories))
      ensures categories == if added then AppendCategory(old(categories), old(newCategoryName)) else old(categories)
      ensures newCategoryName == if added then "" else old(newCategoryName)
      ensures NoDup(old(categories)) ==> NoDup(categories)
    {
      var cleanName := Trim(newCategoryName);
      if cleanName == "" || cleanName in categories {
        return false;
      }
      if writeOk {
        categories := categories + [cleanName];
        newCategoryName := "";
        added := true;
      } else {
        added := false;
      }
    }

    /**
     * `handleRemoveCategory`: after confirmation and a successful write the name
     * is gone from the list; no record is touched, so records may keep a
     * category that is no longer listed.
     */
    method RemoveCategory(name: string, confirmed: bool, writeOk: bool)
      modifies this`categories
      ensures categories == if confirmed && writeOk then DropCategory(old(categories), name) else old(categories)
      ensures confirmed && writeOk ==> name !in categories
      ensures NoDup(old(categories)) ==> NoDup(categories)
    {
      if confirmed && writeOk {
        categories := DropCategory(categories, name);
        DropKeepsNoDup(old(categories), name);
      }
    }
  }

  lemma {:induction false} DropKeepsNoDup(list: seq<string>, name: string)
    ensures NoDup(list) ==> NoDup(DropCategory(list, name))
  {
    if list != [] && NoDup(list) {
      DropKeepsNoDup(list[1..], name);
      var rest := DropCategory(list[1..], name);
      assert NoDup(list[1..]);
      DropCounts(list[1..], name);
      if list[0] != name {
        assert list[0] !in list[1..];
        assert multiset(rest)[list[0]] == multiset(list[1..])[list[0]] == 0;
        assert list[0] !in rest;
      }
    }
  }
}
