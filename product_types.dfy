/** The records of the catalogue: the raw commerce product as the shop back end delivers it
    (only the fields the normaliser reads), and the two normalised shapes, a wine and an event,
    joined in the sum type `UnifiedProduct`. */
module ProductTypes {
  import opened Basics

  /** A category or a tag of the raw record. */
  datatype Term = Term(id: int, name: string, slug: string)

  datatype Image = Image(src: string, alt: string)

  /** A product attribute and its option values, such as `Rebsorte: [Riesling]`. */
  datatype Attribute = Attribute(name: string, options: seq<string>)

  datatype StockStatus = InStock | OutOfStock | OnBackorder

  /** The raw product record of the commerce back end. */
  datatype RawProduct = RawProduct(
    id: nat,
    name: string,
    slug: string,
    description: string,
    shortDescription: string,
    sku: string,
    price: string,
    regularPrice: string,
    taxStatus: string,
    taxClass: string,
    stockQuantity: Option<int>,
    stockStatus: StockStatus,
    weight: string,
    categories: seq<Term>,
    tags: seq<Term>,
    images: seq<Image>,
    attributes: seq<Attribute>)

  /** The closed set of wine types; the normaliser never produces `Paket` or `Sonstiges`, which
      only the bundled catalogue uses. */
  datatype WineType = Rotwein | Weisswein | Rosewein | Sekt | Alkoholfrei | Paket | Sonstiges

  /** The display name of a wine type, as the catalogue filters compare it. */
  function TypeName(t: WineType): (r: string)
    ensures r != "All"
  {
    match t
    case Rotwein => "Rotwein"
    case Weisswein => "Weißwein"
    case Rosewein => "Roséwein"
    case Sekt => "Sekt"
    case Alkoholfrei => "Alkoholfrei"
    case Paket => "Paket"
    case Sonstiges => "Sonstiges"
  }

  lemma TypeNameInjective(a: WineType, b: WineType)
    ensures TypeName(a) == TypeName(b) <==> a == b
  {
  }

  /** A normalised wine. A price without a numeric prefix is held as 0. */
  datatype WineInfo = WineInfo(
    id: string,
    name: string,
    slug: string,
    price: real,
    regularPrice: real,
    description: string,
    shortDescription: string,
    inStock: bool,
    images: seq<Image>,
    categories: seq<Term>,
    tags: seq<Term>,
    attributes: seq<Attribute>,
    sku: string,
    weight: string,
    stockQuantity: Option<int>,
    taxStatus: string,
    taxClass: string,
    image: string,
    year: int,
    wineType: WineType,
    grapeVariety: string,
    alcohol: string,
    acidity: string,
    sugar: string,
    location: string,
    qualityLevel: string,
    flavor: string,
    soil: string,
    producer: string,
    temp: string)

  /** A normalised event: a tasting, a cellar tour or a wine festival. */
  datatype EventInfo = EventInfo(
    id: string,
    title: string,
    date: string,
    time: string,
    location: string,
    spots: string,
    price: string,
    category: string,
    image: string,
    isAfterwork: bool,
    isWeinfeste: bool,
    isWeinproben: bool,
    isKellerblicke: bool,
    isWeintreff: bool,
    isWeinWeiter: bool,
    isWeinRaetselTour: bool)

  /** An item of the catalogue. */
  datatype UnifiedProduct = Wine(wine: WineInfo) | Event(event: EventInfo) {
    function Id(): string {
      if Wine? then wine.id else event.id
    }
  }
}
