/**
 * The item detail page: how a record's status, price, contact action and
 * optional fields are presented, and the loading / not-found view state
 * around fetching the record.
 */
module ItemDetail {
  import opened Catalog
  import opened Wrappers

  predicate Known(status: string) {
    status == Available || status == OnOrder || status == Sold
  }

  // ---------------------------------------------------------------------------
  // Status presentation

  /**
   * `getStatusLabel`: the three statuses the admin page writes get their
   * Portuguese label; any other status is shown as it is stored. So the
   * label differs from the stored text exactly for the three known statuses.
   */
  function StatusLabel(status: string): (shown: string)
    ensures status == Available ==> shown == "Pronta Entrega"
    ensures status == OnOrder ==> shown == "Sob Encomenda"
    ensures status == Sold ==> shown == "Vendido"
    ensures shown == status <==> !Known(status)
  {
    if status == Available then "Pronta Entrega"
    else if status == OnOrder then "Sob Encomenda"
    else if status == Sold then "Vendido"
    else status
  }

  const GreenStyle: string := "text-green-600 bg-green-50"
  const BlueStyle: string := "text-blue-600 bg-blue-50"
  const RedStyle: string := "text-red-600 bg-red-50"
  const GrayStyle: string := "text-gray-600 bg-gray-50"

  /**
   * `getStatusStyles`: green, blue and red for the three known statuses,
   * gray exactly for every other one.
   */
  function StatusStyle(status: string): (style: string)
    ensures status == Available ==> style == GreenStyle
    ensures status == OnOrder ==> style == BlueStyle
    ensures status == Sold ==> style == RedStyle
    ensures style == GrayStyle <==> !Known(status)
  {
    if status == Available then GreenStyle
    else if status == OnOrder then BlueStyle
    else if status == Sold then RedStyle
    else GrayStyle
  }

  /** Different known statuses never share a label or a style. */
  lemma KnownStatusesDistinct(s1: string, s2: string)
    requires Known(s1) && Known(s2) && s1 != s2
    ensures StatusLabel(s1) != StatusLabel(s2) && StatusStyle(s1) != StatusStyle(s2)
  {
  }

  // ---------------------------------------------------------------------------
  // Price and contact

  const PrivateCollection: string := "Acervo Privado"

  /**
   * The price line: "Acervo Privado" exactly when the record is sold,
   * otherwise "R$ " and the formatted price (`toLocaleString` given as `formatted`).
   */
  function PriceText(status: string, formatted: string): (text: string)
    ensures text == PrivateCollection <==> status == Sold
    ensures status != Sold ==> text == "R$ " + formatted
  {
    if status == Sold then PrivateCollection
    else
      assert ("R$ " + formatted)[0] != PrivateCollection[0];
      "R$ " + formatted
  }

  datatype Action = ContactButton | UnavailableNotice

  /** The contact button for anything not sold; the unavailable notice otherwise. */
  function ActionFor(status: string): (a: Action)
    ensures a == ContactButton <==> status != Sold
  {
    if status != Sold then ContactButton else UnavailableNotice
  }

  const ContactNote: string := "Atendimento via WhatsApp"
  const BrowseNote: string := "Consulte outras peças da coleção"

  /** The footnote under the action, on the same condition as the action. */
  function Footnote(status: string): (note: string)
    ensures note == ContactNote <==> status != Sold
    ensures note == BrowseNote <==> status == Sold
  {
    if status != Sold then ContactNote else BrowseNote
  }

  /**
   * One condition decides all three: the price is hidden, the contact button
   * is replaced and the footnote changes together, exactly for a sold record.
   */
  lemma SoldViewAgrees(status: string, formatted: string)
    ensures (PriceText(status, formatted) == PrivateCollection)
        == (ActionFor(status) == UnavailableNotice)
        == (Footnote(status) == BrowseNote)
        == (status == Sold)
  {
  }

  // ---------------------------------------------------------------------------
  // Field defaults

  const StandardSize: string := "Tamanho padrão"
  const DefaultDescription: string :=
    "Esta peça é única e produzida manualmente pela artista Bete, utilizando técnicas tradicionais de crochê."

  /** `work.dimensions || "Tamanho padrão"`: never blank, and a given size is shown as it is. */
  function DimensionsText(dimensions: string): (text: string)
    ensures text != ""
    ensures dimensions != "" ==> text == dimensions
    ensures dimensions == "" ==> text == StandardSize
  {
    if dimensions != "" then dimensions else StandardSize
  }

  /** `work.description || ...`: never blank, and a given description is shown as it is. */
  function DescriptionText(description: string): (text: string)
    ensures text != ""
    ensures description != "" ==> text == description
    ensures description == "" ==> text == DefaultDescription
  {
    if description != "" then description else DefaultDescription
  }

  // ---------------------------------------------------------------------------
  // The view state

  /** What `getDoc` gives the page: the document, no document, or a read error. */
  datatype Lookup = Found(record: Artwork) | Absent | ReadFailed

  datatype View = Spinner | NotFound | Detail(work: Artwork)

  class ItemPage {
    /** The `:id` route parameter; the route always supplies one. */
    const id: string
    var work: Option<Artwork>
    var loading: bool

    /** `work` starts as the record passed with the navigation; `loading` exactly when there is none. */
    constructor (routeId: string, passed: Option<Artwork>)
      ensures id == routeId && work == passed && loading == passed.None?
      ensures CurrentView() == if passed.Some? then Detail(passed.value) else Spinner
      ensures NeedsFetch() <==> passed.None? && routeId != ""
    {
      id := routeId;
      work := passed;
      loading := passed.None?;
    }

    /**
     * The effect fetches only when there is no record and the id is truthy;
     * a page that already shows a record never fetches.
     */
    predicate NeedsFetch()
      reads this
      ensures NeedsFetch() ==> work.None? && id != ""
      ensures work.Some? ==> !NeedsFetch()
    {
      work.None? && id != ""
    }

    /** The spinner while loading; "not found" when done without a record; else the detail. */
    function CurrentView(): (v: View)
      reads this
      ensures v == Spinner <==> loading
      ensures v == NotFound <==> !loading && work.None?
      ensures v.Detail? ==> work == Some(v.work)
    {
      if loading then Spinner
      else if work.None? then NotFound
      else Detail(work.value)
    }

    /**
     * One run of the load effect, to completion. When it fetches, loading ends
     * either way; the record found (under the route's id) is shown, and a
     * missing document or a read error leaves the "not found" view.
     */
    method LoadEffect(result: Lookup)
      modifies this`work, this`loading
      ensures old(NeedsFetch()) ==> !loading
      ensures old(NeedsFetch()) ==>
        work == if result.Found? then Some(result.record.(id := id)) else None
      ensures old(NeedsFetch()) ==>
        CurrentView() == if result.Found? then Detail(result.record.(id := id)) else NotFound
      ensures !old(NeedsFetch()) ==> work == old(work) && loading == old(loading)
    {
      if NeedsFetch() {
        loading := true;
        match result {
          case Found(r) => work := Some(r.(id := id));
          case Absent =>
          case ReadFailed =>
        }
        loading := false;
      }
    }
  }
}
