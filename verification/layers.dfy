/** The layers `mapPolygons` puts in its feature group: one `L.geoJSON()`
    layer per selected product, given the product's feature and the red
    style only when the product has a `location`. */
module Layers {
  import opened Wrappers
  import opened Catalog

  datatype Style = Style(color: string)

  const Red: Style := Style("#ff0000")

  /** A layer's data and its `options.style`; both absent on a fresh layer. */
  datatype Layer = Layer(data: Option<Feature>, style: Option<Style>)

  function LayerFor(p: Product): (l: Layer)
    ensures l.data == p.location
    ensures l.style.Some? <==> p.location.Some?
    ensures l.style.Some? ==> l.style.value == Red
  {
    if p.location.Some? then Layer(p.location, Some(Red)) else Layer(None, None)
  }

  /** The group after the `forEach` pass has added one layer per product. */
  function Draw(ps: seq<Product>): seq<Layer>
  {
    if ps == [] then [] else Draw(ps[..|ps| - 1]) + [LayerFor(ps[|ps| - 1])]
  }

  /** One layer per product, in product order, products without a location
      included. */
  lemma {:induction false} DrawOnePerProduct(ps: seq<Product>)
    ensures |Draw(ps)| == |ps|
    ensures forall k :: 0 <= k < |ps| ==> Draw(ps)[k] == LayerFor(ps[k])
  {
    if ps != [] {
      DrawOnePerProduct(ps[..|ps| - 1]);
    }
  }

  /** The number of layers that hold a shape. */
  function Shapes(group: seq<Layer>): nat
  {
    if group == [] then 0
    else Shapes(group[..|group| - 1]) + (if group[|group| - 1].data.Some? then 1 else 0)
  }

  /** The number of products that have a location. */
  function Located(ps: seq<Product>): nat
  {
    if ps == [] then 0
    else Located(ps[..|ps| - 1]) + (if ps[|ps| - 1].location.Some? then 1 else 0)
  }

  /** Exactly the products with a location end up as shapes. */
  lemma {:induction false} ShapesAreLocated(ps: seq<Product>)
    ensures Shapes(Draw(ps)) == Located(ps)
  {
    if ps != [] {
      ShapesAreLocated(ps[..|ps| - 1]);
      var g := Draw(ps);
      DrawOnePerProduct(ps);
      assert g[..|g| - 1] == Draw(ps[..|ps| - 1]);
    }
  }
}
