/**
 * The link-highlighting rule of the navigation bar: a link is active when the
 * current pathname is its path, or (for any path other than the root) when
 * the pathname starts with it. Rendering is not modelled.
 */
module NavBar {
  import opened JsString

  /** `isActive(path)` for the current `pathname`. */
  function IsActive(pathname: string, path: string): (r: bool)
    ensures pathname == path ==> r
    ensures r ==> StartsWith(pathname, path)
    ensures path == "/" ==> (r <==> pathname == "/")
    ensures path != "/" ==> (r <==> StartsWith(pathname, path))
  {
    pathname == path || (path != "/" && StartsWith(pathname, path))
  }

  /** The Home link is highlighted by its own exact test. */
  function HomeHighlighted(pathname: string): (r: bool)
    ensures r <==> IsActive(pathname, "/")
  {
    pathname == "/"
  }

  /** A product detail page activates the Shop link. */
  lemma ProductPageActivatesShop()
    ensures IsActive("/products/1", "/products")
  {
    assert "/products/1"[..|"/products"|] == "/products";
  }

  /**
   * There is no path-segment boundary check: "/productsale" activates
   * "/products" as well.
   */
  lemma NoSegmentBoundary()
    ensures IsActive("/productsale", "/products")
  {
    assert "/productsale"[..|"/products"|] == "/products";
  }

  /** The root link is never activated by a deeper path. */
  lemma RootNotActivatedByPrefix()
    ensures !IsActive("/products", "/")
  {
  }
}
