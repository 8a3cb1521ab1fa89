/** The stored image field of a product and the three tolerant readers of it
    (`getProductImage` on the home page, on the products page and on the admin
    products page). The field is sometimes a native array of URLs, sometimes a JSON
    text of such an array, sometimes a bare URL. `JSON.parse` is a parameter: it
    returns `None` where the real one throws. */
module ProductImages {
  import opened Wrappers
  import opened Text

  /** A field value or a parse result: null/undefined, an array of strings, a string,
      or any other JSON value (a number, a boolean or an object). */
  datatype Value = Absent | Arr(items: seq<string>) | Str(s: string) | Other

  type Parser = string -> Option<Value>

  const HomePlaceholder: string := "/placeholder.svg?height=200&width=200"
  const ProductsPlaceholder: string := "/placeholder.svg?height=200&width=200"
  const AdminPlaceholder: string := "/placeholder.svg?height=60&width=60"

  /** The first element of a parse result that is a non-empty array. */
  function ParsedHead(r: Option<Value>): Option<string> {
    match r
    case Some(Arr(xs)) => if |xs| > 0 then Some(xs[0]) else None
    case _ => None
  }

  /** `getProductImage` of the products page and of the admin products page (the two
      differ only in `placeholder`): a falsy field gives the placeholder; a native array
      its first element unless that is missing or empty; a string is parsed and gives
      the head of a non-empty parsed array, or the string itself when parsing throws. */
  function ListingImage(field: Value, parse: Parser, placeholder: string): string {
    match field
    case Absent => placeholder
    case Other => placeholder
    case Arr(a) => if |a| > 0 && a[0] != "" then a[0] else placeholder
    case Str(s) =>
      if s == "" then placeholder
      else if parse(s).None? then s
      else ParsedHead(parse(s)).GetOr(placeholder)
  }

  /** `getProductImage` of the home page: `JSON.parse` applied to the field as it is
      (JavaScript turns a native array into its comma-joined text first, and null into
      "null"); only a non-empty parsed array yields an image. */
  function HomeImage(field: Value, parse: Parser): string {
    match field
    case Absent => HomePlaceholder
    case Other => HomePlaceholder
    case Arr(a) => ParsedHead(parse(Join(a, ","))).GetOr(HomePlaceholder)
    case Str(s) => ParsedHead(parse(s)).GetOr(HomePlaceholder)
  }

  /** Reference reading of the field as an ordered URL list, one case per stored form:
      array detection, then JSON decoding, then the raw string as one URL. */
  function ImageList(field: Value, parse: Parser): seq<string> {
    match field
    case Absent => []
    case Other => []
    case Arr(a) => a
    case Str(s) =>
      if s == "" then []
      else match parse(s)
        case None => [s]
        case Some(Arr(xs)) => xs
        case Some(_) => []
  }

  /** The products and admin pages show the first URL of the reference list, and their
      placeholder exactly when that list has no first URL (a native array whose first
      element is empty also shows the placeholder). */
  lemma ListingShowsFirstListed(field: Value, parse: Parser, placeholder: string)
    ensures var l := ImageList(field, parse);
      ListingImage(field, parse, placeholder) ==
        if l == [] || (field.Arr? && l[0] == "") then placeholder else l[0]
  {
  }

  /** The home page shows an image only for a field whose JSON text parses to a
      non-empty array, and then that array's head. */
  lemma HomeShowsOnlyParsedArrays(field: Value, parse: Parser)
    ensures HomeImage(field, parse) != HomePlaceholder ==>
      (field.Str? && ParsedHead(parse(field.s)) == Some(HomeImage(field, parse))) ||
      (field.Arr? && ParsedHead(parse(Join(field.items, ","))) == Some(HomeImage(field, parse)))
  {
  }

  /** Where the pages agree: a JSON-encoded non-empty array gives its head on every page. */
  lemma PagesAgreeOnEncodedArrays(s: string, parse: Parser, xs: seq<string>)
    requires s != "" && parse(s) == Some(Arr(xs)) && |xs| > 0
    ensures HomeImage(Str(s), parse) == xs[0]
    ensures ListingImage(Str(s), parse, ProductsPlaceholder) == xs[0]
    ensures ListingImage(Str(s), parse, AdminPlaceholder) == xs[0]
  {
  }

  /** Where they differ: a bare URL (not JSON) is shown as is by the listings but
      replaced by the placeholder on the home page; so is a native array whose
      comma-joined text is not JSON, which is every array of plain URLs. */
  lemma PagesDifferOnRawValues(url: string, urls: seq<string>, parse: Parser)
    requires url != "" && parse(url).None?
    requires |urls| > 0 && urls[0] != "" && parse(Join(urls, ",")).None?
    ensures ListingImage(Str(url), parse, ProductsPlaceholder) == url
    ensures HomeImage(Str(url), parse) == HomePlaceholder
    ensures ListingImage(Arr(urls), parse, ProductsPlaceholder) == urls[0]
    ensures HomeImage(Arr(urls), parse) == HomePlaceholder
  {
  }

  /** The three stored forms normalise consistently: a bare URL to a one-element list,
      a native array and its JSON text to the same list. */
  lemma StoredFormsNormalise(url: string, urls: seq<string>, encoded: string, parse: Parser)
    requires url != "" && parse(url).None?
    requires encoded != "" && parse(encoded) == Some(Arr(urls))
    ensures ImageList(Str(url), parse) == [url]
    ensures ImageList(Arr(urls), parse) == urls
    ensures ImageList(Str(encoded), parse) == urls
  {
  }
}
