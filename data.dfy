/**
 * The product record and the process-wide catalog store, seeded with four
 * records at start-up and never persisted.
 */
module Data {
  import opened JsString

  /** One catalog entry. Prices are exact decimals; no arithmetic is done on them. */
  datatype Product = Product(
    id: string,
    name: string,
    slug: string,
    price: real,
    description: string,
    category: string)

  const HeadsetDescription := "Immersive sound with active noise cancellation and RGB lighting."
  const KeyboardDescription := "Linear switches for swift gaming action and satisfying clicks."
  const HoodieDescription := "Comfortable cotton blend hoodie perfect for long coding sessions."
  const DockDescription := "Expand your connectivity with HDMI, Ethernet, and 4 USB ports."

  /** The four records the store holds when the process starts. */
  function Seed(): seq<Product>
  {
    [ Product("1", "Neon Gaming Headset", "neon-gaming-headset", 199.99, HeadsetDescription, "Electronics"),
      Product("2", "Mechanical Keyboard", "mechanical-keyboard", 129.50, KeyboardDescription, "Electronics"),
      Product("3", "Developer Hoodie", "developer-hoodie", 49.99, HoodieDescription, "Clothing"),
      Product("4", "USB-C Docking Station", "usb-c-dock", 89.00, DockDescription, "Accessories") ]
  }

  /** The ids of the store read "1", "2", ..., "n" in order. */
  ghost predicate IdsSequential(ps: seq<Product>)
  {
    forall i :: 0 <= i < |ps| ==> ps[i].id == DecimalString(i + 1)
  }

  /** No two entries of the store share an id. */
  ghost predicate IdsUnique(ps: seq<Product>)
  {
    forall i, j :: 0 <= i < j < |ps| ==> ps[i].id != ps[j].id
  }

  /**
   * The seed holds four records with ids "1" to "4" in that order, and every
   * seed price is non-zero, so each would pass the price check of POST.
   */
  lemma SeedShape()
    ensures |Seed()| == 4
    ensures IdsSequential(Seed())
    ensures forall i :: 0 <= i < |Seed()| ==> Seed()[i].price > 0.0
  {
    var s := Seed();
    assert DecimalString(1) == "1" && DecimalString(2) == "2";
    assert DecimalString(3) == "3" && DecimalString(4) == "4";
  }

  /** Sequential ids are unique ids. */
  lemma SequentialIdsAreUnique(ps: seq<Product>)
    requires IdsSequential(ps)
    ensures IdsUnique(ps)
  {
    forall i, j | 0 <= i < j < |ps|
      ensures ps[i].id != ps[j].id
    {
      DecimalStringInjective(i + 1, j + 1);
    }
  }

  /** The shared, mutable `products` array. */
  class Store {
    var products: seq<Product>

    constructor ()
      ensures products == Seed()
    {
      products := Seed();
    }
  }
}
