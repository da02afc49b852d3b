/**
 * The `/api/products` route handlers.
 *
 * GET lists the store, optionally narrowed by an exact, case-insensitive
 * category and by a case-insensitive substring of the name. POST validates a
 * parsed body, builds a record with the next sequential id and a slug derived
 * from the name, and appends it to the shared store.
 */
module ProductsRoute {
  import opened Wrappers
  import opened JsString
  import opened JsArray
  import opened Data

  /** A query-string value or body string is falsy when absent or empty. */
  predicate Truthy(o: Option<string>) { o.Some? && o.value != "" }

  /** A price is falsy when absent or zero. */
  predicate TruthyPrice(o: Option<real>) { o.Some? && o.value != 0.0 }

  // ===========================================================================
  // GET /api/products
  // ===========================================================================

  /** The `category` and `search` query parameters; `None` when not given. */
  datatype Query = Query(category: Option<string>, search: Option<string>)

  /** The response envelope of GET (its `timestamp` is not modelled). */
  datatype ListResponse = ListResponse(success: bool, count: nat, data: seq<Product>)

  /** The category filter: equality after lowercasing both sides. */
  predicate InCategory(category: string, p: Product)
  {
    ToLowerCase(p.category) == ToLowerCase(category)
  }

  /** The search filter: the lowercased name contains the lowercased term. */
  predicate NameContains(search: string, p: Product)
  {
    Includes(ToLowerCase(p.name), ToLowerCase(search))
  }

  /** A product passes every filter the query switches on. */
  predicate Matches(q: Query, p: Product)
  {
    && (Truthy(q.category) ==> InCategory(q.category.value, p))
    && (Truthy(q.search) ==> NameContains(q.search.value, p))
  }

  function Matcher(q: Query): Product -> bool
  {
    p => Matches(q, p)
  }

  /** GET: a copy of the store, filtered by category and then by search. */
  function List(products: seq<Product>, q: Query): (r: ListResponse)
    ensures r.success && r.count == |r.data|
    ensures forall p :: p in r.data ==> p in products && Matches(q, p)
    ensures !Truthy(q.category) && !Truthy(q.search) ==> r.data == products
  {
    var byCategory :=
      if Truthy(q.category) then
        var category := q.category.value;
        Filter(products, p => InCategory(category, p))
      else products;
    var bySearch :=
      if Truthy(q.search) then
        var search := q.search.value;
        Filter(byCategory, p => NameContains(search, p))
      else byCategory;
    ListResponse(true, |bySearch|, bySearch)
  }

  /** The two successive filters of GET are one filter by the conjunction of the active ones. */
  lemma ListIsOneFilter(products: seq<Product>, q: Query)
    ensures List(products, q).data == Filter(products, Matcher(q))
  {
    var m := Matcher(q);
    if Truthy(q.category) {
      var category := q.category.value;
      var f := p => InCategory(category, p);
      if Truthy(q.search) {
        var search := q.search.value;
        var g := p => NameContains(search, p);
        FilterFilter(products, f, g, m);
      } else {
        FilterCongruent(products, f, m);
      }
    } else if Truthy(q.search) {
      var search := q.search.value;
      var g := p => NameContains(search, p);
      FilterCongruent(products, g, m);
    } else {
      FilterAll(products, m);
    }
  }

  /**
   * GET returns exactly the matching products, in store order: entry k of the
   * result is store entry idx[k], the positions idx increase, and a position
   * is among them if and only if its product matches the query.
   */
  lemma ListSelectsMatches(products: seq<Product>, q: Query)
    ensures var r, idx := List(products, q).data, KeptIndices(products, Matcher(q));
      && |r| == |idx|
      && StrictlyIncreasing(idx)
      && (forall k :: 0 <= k < |idx| ==> idx[k] < |products| && r[k] == products[idx[k]])
      && (forall i :: 0 <= i < |products| ==> (i in idx <==> Matches(q, products[i])))
  {
    ListIsOneFilter(products, q);
    FilterSelectsKept(products, Matcher(q));
  }

  /** A product is listed if and only if it is in the store and matches the query. */
  lemma ListMembership(products: seq<Product>, q: Query, p: Product)
    ensures p in List(products, q).data <==> p in products && Matches(q, p)
  {
    if p in products && Matches(q, p) {
      ListIsOneFilter(products, q);
      FilterComplete(products, Matcher(q), p);
    }
  }

  /** GET: read the shared store and answer the listing; nothing is modified. */
  method Get(store: Store, q: Query) returns (r: ListResponse)
    ensures r == List(store.products, q)
  {
    var snapshot := store.products;
    r := List(snapshot, q);
  }

  // ===========================================================================
  // Slugs: name.toLowerCase().replace(/\s+/g, '-')
  // ===========================================================================

  predicate NoWhitespace(s: string)
  {
    forall i :: 0 <= i < |s| ==> !IsWhitespace(s[i])
  }

  predicate AllWhitespace(s: string)
  {
    forall i :: 0 <= i < |s| ==> IsWhitespace(s[i])
  }

  /**
   * Every maximal run of whitespace in `s` replaced by a single `-`: a
   * whitespace character followed by another one is dropped, and the last
   * one of a run becomes the `-`.
   */
  function Hyphenate(s: string): (r: string)
    ensures |r| <= |s|
    ensures NoWhitespace(r)
  {
    if s == [] then []
    else if !IsWhitespace(s[0]) then [s[0]] + Hyphenate(s[1..])
    else if |s| > 1 && IsWhitespace(s[1]) then Hyphenate(s[1..])
    else "-" + Hyphenate(s[1..])
  }

  /** A whitespace run followed by non-whitespace (or nothing) becomes one `-`. */
  lemma {:induction false} HyphenateLeadingRun(run: string, rest: string)
    requires run != [] && AllWhitespace(run)
    requires rest == [] || !IsWhitespace(rest[0])
    ensures Hyphenate(run + rest) == "-" + Hyphenate(rest)
  {
    assert (run + rest)[1..] == run[1..] + rest;
    if |run| > 1 {
      HyphenateLeadingRun(run[1..], rest);
    }
  }

  /** Text without whitespace is left as it is. */
  lemma {:induction false} HyphenateWord(w: string)
    requires NoWhitespace(w)
    ensures Hyphenate(w) == w
  {
    if w != [] {
      HyphenateWord(w[1..]);
    }
  }

  /**
   * A maximal whitespace run, however long, becomes exactly one `-`: the text
   * before it is copied and the text after it is hyphenated in turn.
   */
  lemma {:induction false} HyphenateRun(w: string, run: string, rest: string)
    requires NoWhitespace(w)
    requires run != [] && AllWhitespace(run)
    requires rest == [] || !IsWhitespace(rest[0])
    ensures Hyphenate(w + run + rest) == w + "-" + Hyphenate(rest)
  {
    if w == [] {
      assert w + run + rest == run + rest;
      HyphenateLeadingRun(run, rest);
    } else {
      assert (w + run + rest)[1..] == w[1..] + run + rest;
      HyphenateRun(w[1..], run, rest);
    }
  }

  /** The slug of a product name: lowercased, whitespace runs turned into `-`. */
  function Slug(name: string): (r: string)
    ensures |r| <= |name|
    ensures NoWhitespace(r)
    ensures forall i :: 0 <= i < |r| ==> !IsUpper(r[i])
  {
    HyphenateLower(ToLowerCase(name));
    Hyphenate(ToLowerCase(name))
  }

  /** Hyphenating a string with no upper-case letter introduces none. */
  lemma {:induction false} HyphenateLower(s: string)
    requires forall i :: 0 <= i < |s| ==> !IsUpper(s[i])
    ensures forall i :: 0 <= i < |Hyphenate(s)| ==> !IsUpper(Hyphenate(s)[i])
  {
    if s != [] {
      HyphenateLower(s[1..]);
    }
  }

  // ===========================================================================
  // POST /api/products
  // ===========================================================================

  /**
   * The request body after JSON parsing: either the parse failed or it gave
   * an object whose fields may be missing.
   */
  datatype Body =
    | Unparseable
    | Parsed(name: Option<string>, price: Option<real>,
             description: Option<string>, category: Option<string>)

  const RequiredMessage := "Name and price are required"
  const InvalidJsonMessage := "Invalid JSON body"
  const CreatedMessage := "Product created successfully"
  const DefaultDescription := "No description provided"
  const DefaultCategory := "general"

  /** The response envelope of POST. */
  datatype PostResponse = Created(data: Product) | BadRequest(error: string)
  {
    function Status(): int { if Created? then 201 else 400 }
    predicate Success() { Created? }
    function Message(): string { if Created? then CreatedMessage else error }
  }

  /** `value || fallback` for an optional string. */
  function OrDefault(o: Option<string>, fallback: string): (r: string)
    ensures Truthy(o) ==> r == o.value
    ensures !Truthy(o) ==> r == fallback
  {
    if Truthy(o) then o.value else fallback
  }

  /** The record POST builds when the store holds `count` entries. */
  function NewProduct(count: nat, name: string, price: real,
                      description: Option<string>, category: Option<string>): (p: Product)
    ensures AllDigits(p.id) && |p.id| > 0 && p.id[0] != '0' && DecimalValue(p.id) == count + 1
    ensures p.id == DecimalString(count + 1)
    ensures p.name == name && p.price == price && p.slug == Slug(name)
    ensures Truthy(description) ==> p.description == description.value
    ensures !Truthy(description) ==> p.description == DefaultDescription
    ensures Truthy(category) ==> p.category == category.value
    ensures !Truthy(category) ==> p.category == DefaultCategory
    ensures p.description != "" && p.category != ""
  {
    DecimalRoundTrip(count + 1);
    Product(DecimalString(count + 1), name, Slug(name), price,
      OrDefault(description, DefaultDescription), OrDefault(category, DefaultCategory))
  }

  /** What POST answers when the store holds `products`. */
  function Respond(products: seq<Product>, body: Body): (r: PostResponse)
    ensures r.Created? <==> body.Parsed? && Truthy(body.name) && TruthyPrice(body.price)
    ensures r.Status() == (if body.Parsed? && Truthy(body.name) && TruthyPrice(body.price) then 201 else 400)
    ensures body.Unparseable? ==> r.error == InvalidJsonMessage
    ensures body.Parsed? && !r.Created? ==> r.error == RequiredMessage
    ensures r.Created? ==>
      r.data == NewProduct(|products|, body.name.value, body.price.value, body.description, body.category)
  {
    match body
    case Unparseable => BadRequest(InvalidJsonMessage)
    case Parsed(name, price, description, category) =>
      if !Truthy(name) || !TruthyPrice(price) then BadRequest(RequiredMessage)
      else Created(NewProduct(|products|, name.value, price.value, description, category))
  }

  /** The store after POST: one more record at the end when created, otherwise unchanged. */
  function StoreAfter(products: seq<Product>, body: Body): (after: seq<Product>)
    ensures var r := Respond(products, body);
      && (r.Created? ==> |after| == |products| + 1 && after[..|products|] == products
                         && after[|products|] == r.data)
      && (!r.Created? ==> after == products)
  {
    var r := Respond(products, body);
    if r.Created? then products + [r.data] else products
  }

  /** POST keeps the ids reading "1".."n": a created record gets id n + 1. */
  lemma PostKeepsIdsSequential(products: seq<Product>, body: Body)
    requires IdsSequential(products)
    ensures IdsSequential(StoreAfter(products, body))
  {
    var r := Respond(products, body);
    if r.Created? {
      var after := StoreAfter(products, body);
      forall i | 0 <= i < |after|
        ensures after[i].id == DecimalString(i + 1)
      {
        if i < |products| {
          assert after[i] == products[i];
        }
      }
    }
  }

  /** Under sequential ids, a created record's id is taken by no earlier record. */
  lemma PostIdIsFresh(products: seq<Product>, body: Body)
    requires IdsSequential(products)
    requires Respond(products, body).Created?
    ensures forall p :: p in products ==> p.id != Respond(products, body).data.id
    ensures IdsUnique(StoreAfter(products, body))
  {
    var id := Respond(products, body).data.id;
    forall p | p in products
      ensures p.id != id
    {
      var i :| 0 <= i < |products| && products[i] == p;
      DecimalStringInjective(i + 1, |products| + 1);
    }
    PostKeepsIdsSequential(products, body);
    SequentialIdsAreUnique(StoreAfter(products, body));
  }

  /**
   * Without sequential ids freshness fails: once the store has a gap (record 2
   * gone), the next id is the length plus one and repeats the last record's id.
   */
  lemma GapThenPostDuplicates()
    ensures var ps, body := [Seed()[0], Seed()[2], Seed()[3]], Parsed(Some("Lamp"), Some(5.0), None, None);
      Respond(ps, body).Created? && Respond(ps, body).data.id == ps[2].id
  {
    assert DecimalString(4) == "4";
  }

  /**
   * Sequential ids are sufficient for freshness, not necessary: with records 2
   * and 3 gone the next id is "3", which no remaining record has.
   */
  lemma GapButFresh()
    ensures var ps, body := [Seed()[0], Seed()[3]], Parsed(Some("Lamp"), Some(5.0), None, None);
      && !IdsSequential(ps) && Respond(ps, body).Created?
      && forall p :: p in ps ==> p.id != Respond(ps, body).data.id
  {
    var ps, body := [Seed()[0], Seed()[3]], Parsed(Some("Lamp"), Some(5.0), None, None);
    assert DecimalString(2) == "2" && ps[1].id == "4";
    assert DecimalString(3) == "3" && Respond(ps, body).data.id == "3";
    forall p | p in ps
      ensures p.id != "3"
    {
      assert p == ps[0] || p == ps[1];
    }
  }

  /** POST: validate the body, build the record and push it onto the shared store. */
  method Post(store: Store, body: Body) returns (resp: PostResponse)
    modifies store
    ensures resp == Respond(old(store.products), body)
    ensures store.products == StoreAfter(old(store.products), body)
    ensures IdsSequential(old(store.products)) ==> IdsSequential(store.products)
  {
    ghost var before := store.products;
    if body.Unparseable? {
      return BadRequest(InvalidJsonMessage);
    }
    if !Truthy(body.name) || !TruthyPrice(body.price) {
      return BadRequest(RequiredMessage);
    }
    var product := NewProduct(|store.products|, body.name.value, body.price.value,
                              body.description, body.category);
    store.products := store.products + [product];
    resp := Created(product);
    if IdsSequential(before) {
      PostKeepsIdsSequential(before, body);
    }
  }

  // ===========================================================================
  // Facts about the seeded store
  // ===========================================================================

  lemma ElectronicsCategory()
    ensures ToLowerCase("Electronics") == "electronics"
  {
  }

  lemma ClothingCategory()
    ensures ToLowerCase("Clothing") == "clothing"
  {
  }

  lemma AccessoriesCategory()
    ensures ToLowerCase("Accessories") == "accessories"
  {
  }

  /** Filtering the seed by category "electronics" gives records 1 and 2, in that order. */
  lemma SeedElectronics()
    ensures List(Seed(), Query(Some("electronics"), None)).data == [Seed()[0], Seed()[1]]
  {
    var s, q := Seed(), Query(Some("electronics"), None);
    var m := Matcher(q);
    ElectronicsCategory();
    ClothingCategory();
    AccessoriesCategory();
    assert ToLowerCase("electronics") == "electronics";
    assert m(s[0]) && m(s[1]) && !m(s[2]) && !m(s[3]);
    ListIsOneFilter(s, q);
    FilterFour(s[0], s[1], s[2], s[3], m);
    assert s == [s[0], s[1], s[2], s[3]];
  }

  /** The category filter is equality, not a substring test: "electronic" matches nothing. */
  lemma SeedCategoryIsExact()
    ensures List(Seed(), Query(Some("electronic"), None)).data == []
  {
    var s, q := Seed(), Query(Some("electronic"), None);
    var m := Matcher(q);
    ElectronicsCategory();
    ClothingCategory();
    AccessoriesCategory();
    assert ToLowerCase("electronic") == "electronic";
    assert !m(s[0]) && !m(s[1]) && !m(s[2]) && !m(s[3]);
    ListIsOneFilter(s, q);
    FilterFour(s[0], s[1], s[2], s[3], m);
    assert s == [s[0], s[1], s[2], s[3]];
  }

  lemma HeadsetNameHasHead()
    ensures Includes(ToLowerCase("Neon Gaming Headset"), "head")
  {
    assert ToLowerCase("Neon Gaming Headset") == "neon gaming headset";
    assert OccursAt("neon gaming headset", "head", 12);
  }

  lemma KeyboardNameLacksHead()
    ensures !Includes(ToLowerCase("Mechanical Keyboard"), "head")
  {
    assert ToLowerCase("Mechanical Keyboard") == "mechanical keyboard";
    NotIncludesPair("mechanical keyboard", "head");
  }

  lemma HoodieNameLacksHead()
    ensures !Includes(ToLowerCase("Developer Hoodie"), "head")
  {
    assert ToLowerCase("Developer Hoodie") == "developer hoodie";
    NotIncludesPair("developer hoodie", "head");
  }

  lemma DockNameLacksHead()
    ensures !Includes(ToLowerCase("USB-C Docking Station"), "head")
  {
    assert ToLowerCase("USB-C Docking Station") == "usb-c docking station";
    NotIncludesPair("usb-c docking station", "head");
  }

  /** Searching the seed for "head" finds only the headset. */
  lemma SeedSearchHead()
    ensures List(Seed(), Query(None, Some("head"))).data == [Seed()[0]]
  {
    var s, q := Seed(), Query(None, Some("head"));
    var m := Matcher(q);
    assert ToLowerCase("head") == "head";
    HeadsetNameHasHead();
    KeyboardNameLacksHead();
    HoodieNameLacksHead();
    DockNameLacksHead();
    assert m(s[0]) && !m(s[1]) && !m(s[2]) && !m(s[3]);
    ListIsOneFilter(s, q);
    FilterFour(s[0], s[1], s[2], s[3], m);
    assert s == [s[0], s[1], s[2], s[3]];
  }

  /** A word without whitespace keeps its lowercased form as its slug. */
  lemma SlugOfWord(x: string)
    requires NoWhitespace(x)
    ensures Slug(x) == ToLowerCase(x)
  {
    var a := ToLowerCase(x);
    forall i | 0 <= i < |a|
      ensures !IsWhitespace(a[i])
    {
      LowerCharKeepsWhitespace(x[i]);
    }
    HyphenateWord(a);
  }

  /** A word, one space and more text: the slug is the lowercased word, `-`, and the slug of the rest. */
  lemma SlugOfWordThen(x: string, rest: string)
    requires NoWhitespace(x) && rest != [] && !IsWhitespace(rest[0])
    ensures Slug(x + " " + rest) == ToLowerCase(x) + "-" + Slug(rest)
  {
    var a, r := ToLowerCase(x), ToLowerCase(rest);
    ToLowerCaseAppend(x + " ", rest);
    ToLowerCaseAppend(x, " ");
    assert ToLowerCase(" ") == " ";
    forall i | 0 <= i < |a|
      ensures !IsWhitespace(a[i])
    {
      LowerCharKeepsWhitespace(x[i]);
    }
    LowerCharKeepsWhitespace(rest[0]);
    HyphenateRun(a, " ", r);
  }

  /** Two words separated by one space: the slug joins the lowercased words with `-`. */
  lemma SlugOfTwoWords(x: string, y: string)
    requires NoWhitespace(x) && NoWhitespace(y) && y != []
    ensures Slug(x + " " + y) == ToLowerCase(x) + "-" + ToLowerCase(y)
  {
    SlugOfWordThen(x, y);
    SlugOfWord(y);
  }

  /** Three words separated by single spaces: the slug joins the lowercased words with `-`. */
  lemma SlugOfThreeWords(x: string, y: string, z: string)
    requires NoWhitespace(x) && NoWhitespace(y) && NoWhitespace(z) && y != [] && z != []
    ensures Slug(x + " " + y + " " + z) == ToLowerCase(x) + "-" + ToLowerCase(y) + "-" + ToLowerCase(z)
  {
    var rest := y + " " + z;
    assert x + " " + y + " " + z == x + " " + rest;
    assert rest[0] == y[0];
    SlugOfWordThen(x, rest);
    SlugOfTwoWords(y, z);
  }

  lemma HeadsetSlug(name: string)
    requires name == "Neon" + " " + "Gaming" + " " + "Headset"
    ensures Slug(name) == "neon-gaming-headset"
  {
    assert ToLowerCase("Neon") + "-" + ToLowerCase("Gaming") + "-" + ToLowerCase("Headset")
      == "neon-gaming-headset";
    SlugOfThreeWords("Neon", "Gaming", "Headset");
  }

  lemma KeyboardSlug(name: string)
    requires name == "Mechanical" + " " + "Keyboard"
    ensures Slug(name) == "mechanical-keyboard"
  {
    assert ToLowerCase("Mechanical") + "-" + ToLowerCase("Keyboard") == "mechanical-keyboard";
    SlugOfTwoWords("Mechanical", "Keyboard");
  }

  lemma HoodieSlug(name: string)
    requires name == "Developer" + " " + "Hoodie"
    ensures Slug(name) == "developer-hoodie"
  {
    assert ToLowerCase("Developer") + "-" + ToLowerCase("Hoodie") == "developer-hoodie";
    SlugOfTwoWords("Developer", "Hoodie");
  }

  lemma DockSlug(name: string)
    requires name == "USB-C" + " " + "Docking" + " " + "Station"
    ensures Slug(name) == "usb-c-docking-station"
  {
    assert ToLowerCase("USB-C") + "-" + ToLowerCase("Docking") + "-" + ToLowerCase("Station")
      == "usb-c-docking-station";
    SlugOfThreeWords("USB-C", "Docking", "Station");
  }

  /** Records 1-3 carry the slug their name yields. */
  lemma SeedSlugsFollowNames()
    ensures forall i :: 0 <= i < 3 ==> Seed()[i].slug == Slug(Seed()[i].name)
  {
    SeedHeadsetSlug();
    SeedKeyboardSlug();
    SeedHoodieSlug();
  }

  lemma SeedHeadsetSlug()
    ensures Seed()[0].slug == Slug(Seed()[0].name)
  {
    HeadsetSlug(Seed()[0].name);
  }

  lemma SeedKeyboardSlug()
    ensures Seed()[1].slug == Slug(Seed()[1].name)
  {
    KeyboardSlug(Seed()[1].name);
  }

  lemma SeedHoodieSlug()
    ensures Seed()[2].slug == Slug(Seed()[2].name)
  {
    HoodieSlug(Seed()[2].name);
  }

  /** The slug rule turns record 4's name into "usb-c-docking-station". */
  lemma SeedDockDerivedSlug()
    ensures Slug(Seed()[3].name) == "usb-c-docking-station"
  {
    DockSlug(Seed()[3].name);
  }

  /**
   * Record 4 does not carry it: its slug is "usb-c-dock", so the slug rule
   * describes the records POST creates, not the whole store.
   */
  lemma SeedDockSlugDiffers()
    ensures Seed()[3].slug != Slug(Seed()[3].name)
  {
    SeedDockDerivedSlug();
  }

  /** Creating "Test Widget" at price 10 on the seed gives record 5 with the defaults. */
  lemma CreateTestWidget()
    ensures Respond(Seed(), Parsed(Some("Test Widget"), Some(10.0), None, None))
      == Created(Product("5", "Test Widget", "test-widget", 10.0, DefaultDescription, DefaultCategory))
  {
    WidgetSlug("Test Widget");
    assert DecimalString(5) == "5";
  }

  lemma WidgetSlug(name: string)
    requires name == "Test" + " " + "Widget"
    ensures Slug(name) == "test-widget"
  {
    assert ToLowerCase("Test") + "-" + ToLowerCase("Widget") == "test-widget";
    SlugOfTwoWords("Test", "Widget");
  }

  /** A zero price is falsy, so POST rejects it and the store stays as it was. */
  lemma ZeroPriceRejected(products: seq<Product>, name: string)
    ensures var body := Parsed(Some(name), Some(0.0), None, None);
      Respond(products, body) == BadRequest(RequiredMessage) && StoreAfter(products, body) == products
  {
  }
}
