/**
 The records of the bike marketplace's buy page: one listing as fetched from
 the catalogue endpoint, the seven filter dimensions of the page and the four
 sort orders it offers.
 */
module Catalog {

  /** One listing. Fields are present integers and strings; an image that is
      missing, null or empty is the empty string (all three are falsy). */
  datatype Bike = Bike(
    id: int,
    model: string,
    specs: string,
    owner: string,
    location: string,
    price: int,
    mileage: int,
    year: int,
    brand: string,
    category: string,
    fuel: string,
    color: string,
    image: string,
    booked: bool)

  /** The filter dimensions, one per key of the page's filter object. */
  datatype Dimension = Price | Brand | Category | Year | Mileage | Fuel | Color

  /** The keys of the filter object in the order the page declares them,
      which is the order the filter effect visits them. */
  const Dimensions: seq<Dimension> := [Price, Brand, Category, Year, Mileage, Fuel, Color]

  /** Price, mileage and year are filtered by range bands; the rest by equality. */
  predicate IsRange(d: Dimension) {
    d == Price || d == Mileage || d == Year
  }

  predicate IsCategorical(d: Dimension) {
    !IsRange(d)
  }

  /** The string field a categorical dimension compares against. */
  function Field(d: Dimension, b: Bike): string
    requires IsCategorical(d)
  {
    match d
    case Brand => b.brand
    case Category => b.category
    case Fuel => b.fuel
    case Color => b.color
  }

  lemma {:induction false} DimensionsListsEveryDimension(d: Dimension)
    ensures exists i :: 0 <= i < |Dimensions| && Dimensions[i] == d
  {
    match d
    case Price => assert Dimensions[0] == d;
    case Brand => assert Dimensions[1] == d;
    case Category => assert Dimensions[2] == d;
    case Year => assert Dimensions[3] == d;
    case Mileage => assert Dimensions[4] == d;
    case Fuel => assert Dimensions[5] == d;
    case Color => assert Dimensions[6] == d;
  }

  /** The sort orders of the page's sort selector. */
  datatype SortKey = Newest | PriceLowHigh | PriceHighLow | MileageLowHigh

  datatype Option<T> = None | Some(value: T)

  /** Decodes the sort selector's value; any other string selects no sort. */
  function SortKeyOf(sort: string): (r: Option<SortKey>)
    ensures r == Some(Newest) <==> sort == "newest"
    ensures r == Some(PriceLowHigh) <==> sort == "price_low_high"
    ensures r == Some(PriceHighLow) <==> sort == "price_high_low"
    ensures r == Some(MileageLowHigh) <==> sort == "mileage_low_high"
  {
    if sort == "newest" then Some(Newest)
    else if sort == "price_low_high" then Some(PriceLowHigh)
    else if sort == "price_high_low" then Some(PriceHighLow)
    else if sort == "mileage_low_high" then Some(MileageLowHigh)
    else None
  }
}
