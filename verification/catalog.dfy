/** The product catalog as the service receives it from
    `/assets/data/search-results.json`: an object with a `products` array. */
module Catalog {
  import opened Wrappers

  /** A GeoJSON feature, kept as the text the map library is handed. */
  datatype Feature = Feature(geoJson: string)

  /** One product record. `location` is absent for some records. */
  datatype Product = Product(id: string, collectionTime: string, location: Option<Feature>)

  datatype Catalog = Catalog(products: seq<Product>)
}
