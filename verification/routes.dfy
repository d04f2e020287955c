/** The root route's page title and layout choice, both read off the pathname's segments,
    with the sidebar's link table. */
module Routes {
  import opened Wrappers
  import opened Seqs

  /** `s.split(c)`: the pieces between the separators, one more than there are separators. */
  function SplitOn(s: string, c: char): (parts: seq<string>)
    ensures |parts| >= 1
    decreases |s|
  {
    if |s| == 0 then [""]
    else
      var rest := SplitOn(s[1..], c);
      if s[0] == c then [""] + rest else [[s[0]] + rest[0]] + rest[1..]
  }

  /** Joining the pieces with the separator gives the string back, and no piece holds
      the separator. */
  lemma {:induction false} SplitJoin(s: string, c: char)
    ensures Join(SplitOn(s, c), [c]) == s
    ensures forall i :: 0 <= i < |SplitOn(s, c)| ==> c !in SplitOn(s, c)[i]
    decreases |s|
  {
    if |s| > 0 {
      var rest := SplitOn(s[1..], c);
      SplitJoin(s[1..], c);
      assert s == [s[0]] + s[1..];
      if s[0] == c {
        assert SplitOn(s, c) == [""] + rest;
        assert (([""] + rest)[1..]) == rest;
      } else {
        var parts := [[s[0]] + rest[0]] + rest[1..];
        assert SplitOn(s, c) == parts;
        assert parts[1..] == rest[1..];
        if |rest| > 1 {
          assert Join(rest, [c]) == rest[0] + [c] + Join(rest[1..], [c]);
        }
        forall i | 0 <= i < |parts|
          ensures c !in parts[i]
        {
          if i > 0 {
            assert parts[i] == rest[i];
          } else {
            assert c !in rest[0];
          }
        }
      }
    }
  }

  /** A string without the separator is a single piece. */
  lemma {:induction false} SplitWithoutSeparator(s: string, c: char)
    requires c !in s
    ensures SplitOn(s, c) == [s]
    decreases |s|
  {
    if |s| > 0 {
      assert c !in s[1..];
      SplitWithoutSeparator(s[1..], c);
      assert s == [s[0]] + s[1..];
    }
  }

  /** A string with the separator splits into at least two pieces. */
  lemma {:induction false} SplitWithSeparator(s: string, c: char)
    requires c in s
    ensures |SplitOn(s, c)| >= 2
    decreases |s|
  {
    if s[0] != c {
      assert c in s[1..];
      SplitWithSeparator(s[1..], c);
    }
  }

  /** Splitting around a separator splits each side on its own. */
  lemma {:induction false} SplitAround(a: string, b: string, c: char)
    ensures SplitOn(a + [c] + b, c) == SplitOn(a, c) + SplitOn(b, c)
    decreases |a|
  {
    var s := a + [c] + b;
    if |a| == 0 {
      assert s == [c] + b;
      assert s[1..] == b;
    } else {
      assert s[1..] == a[1..] + [c] + b;
      SplitAround(a[1..], b, c);
    }
  }

  /** An entry of the sidebar's link table. */
  datatype NavLink = NavLink(key: string, title: string, href: string)

  const NavLinks: seq<NavLink> := [
    NavLink("dashboard", "Dashboard", "/dashboard"),
    NavLink("products", "Products", "/products"),
    NavLink("inventory", "Inventory", "/inventory"),
    NavLink("reports", "Reports", "/reports"),
    NavLink("stock-movements", "Stock Movements", "/stock-movements"),
    NavLink("branches", "Branches", "/branches"),
    NavLink("categories", "Categories", "/categories"),
    NavLink("staff", "Staff Management", "/staff")]

  /** `navLinks[key]?.title`: the title of the entry under that key, if any. */
  function NavTitle(key: string): (t: Option<string>)
  {
    if key == "dashboard" then Some("Dashboard")
    else if key == "products" then Some("Products")
    else if key == "inventory" then Some("Inventory")
    else if key == "reports" then Some("Reports")
    else if key == "stock-movements" then Some("Stock Movements")
    else if key == "branches" then Some("Branches")
    else if key == "categories" then Some("Categories")
    else if key == "staff" then Some("Staff Management")
    else None
  }

  /** The lookup agrees with the link table: a key has a title exactly when the table
      has an entry under it, and then it is that entry's title. */
  lemma NavTitleMatchesTable(key: string)
    ensures NavTitle(key).Some? <==> exists l :: l in NavLinks && l.key == key
    ensures forall l :: l in NavLinks && l.key == key ==> NavTitle(key) == Some(l.title)
  {
    if NavTitle(key).Some? {
      var i := if key == "dashboard" then 0 else if key == "products" then 1
               else if key == "inventory" then 2 else if key == "reports" then 3
               else if key == "stock-movements" then 4 else if key == "branches" then 5
               else if key == "categories" then 6 else 7;
      assert NavLinks[i] in NavLinks && NavLinks[i].key == key;
    }
  }

  const DetailsTitle := "Product Details"

  /** Some sidebar link carries the title `t`. */
  predicate IsLinkTitle(t: string)
  {
    exists l :: l in NavLinks && l.title == t
  }

  /** The title handed to the dashboard layout for a pathname. */
  function PageTitle(pathname: string): Option<string>
  {
    var parts := SplitOn(pathname, '/');
    if |parts| == 3 && parts[1] == "products" then Some(DetailsTitle)
    else if |parts| >= 2 then NavTitle(parts[1])
    else None
  }

  /** Every title is 'Product Details' or the title of a sidebar link. */
  lemma PageTitleFromTable(pathname: string)
    ensures PageTitle(pathname).Some? ==>
              PageTitle(pathname).value == DetailsTitle || IsLinkTitle(PageTitle(pathname).value)
  {
    var parts := SplitOn(pathname, '/');
    if |parts| >= 2 {
      NavTitleMatchesTable(parts[1]);
    }
  }

  /** Whether the page is wrapped in the dashboard layout: every page but login and
      signup. A page shown without the layout has no title. */
  function UsesLayout(pathname: string): (wrapped: bool)
    ensures !wrapped ==> PageTitle(pathname).None?
  {
    var parts := SplitOn(pathname, '/');
    !(|parts| >= 2 && parts[1] in {"login", "signup"})
  }

  /** A path made of one separator and a piece without one splits into an empty first
      piece and that piece. */
  lemma SplitTopLevel(key: string)
    requires '/' !in key
    ensures SplitOn("/" + key, '/') == ["", key]
  {
    SplitAround("", key, '/');
    assert "" + ['/'] + key == "/" + key;
    SplitWithoutSeparator(key, '/');
  }

  /** A top-level path `/key` takes the table title of `key`, or none when `key` is not in
      the table, `/products` included; a path without any separator has no title. */
  lemma TopLevelTitle(key: string)
    requires '/' !in key
    ensures PageTitle("/" + key) == NavTitle(key)
    ensures PageTitle(key) == None
  {
    SplitTopLevel(key);
    SplitWithoutSeparator(key, '/');
  }

  /** Any deeper path outside `/products`, such as `/reports/x` or `/inventory/a/b`, takes
      the table title of its first segment. */
  lemma DeeperTitle(key: string, rest: string)
    requires '/' !in key && key != "products"
    ensures PageTitle("/" + key + "/" + rest) == NavTitle(key)
  {
    SplitTopLevel(key);
    SplitAround("/" + key, rest, '/');
    assert "/" + key + ['/'] + rest == "/" + key + "/" + rest;
  }

  /** Only the login and signup pages are shown without the dashboard layout. */
  lemma LayoutChoice(key: string, rest: string)
    requires '/' !in key
    ensures UsesLayout("/" + key + "/" + rest) <==> key != "login" && key != "signup"
    ensures UsesLayout("/" + key) <==> key != "login" && key != "signup"
    ensures UsesLayout(key)
  {
    SplitTopLevel(key);
    SplitWithoutSeparator(key, '/');
    SplitAround("/" + key, rest, '/');
    assert "/" + key + ['/'] + rest == "/" + key + "/" + rest;
  }

  /** A product path `/products/x` is titled 'Product Details' exactly when `x` holds no
      further separator (an empty `x` included); deeper paths are titled 'Products'. */
  lemma ProductPathTitle(x: string)
    ensures '/' !in x ==> PageTitle("/products/" + x) == Some(DetailsTitle)
    ensures '/' in x ==> PageTitle("/products/" + x) == NavTitle("products")
  {
    var key := "products";
    assert '/' !in key;
    SplitTopLevel(key);
    SplitAround("/" + key, x, '/');
    assert "/" + key + ['/'] + x == "/products/" + x;
    var parts := SplitOn("/products/" + x, '/');
    assert parts == ["", key] + SplitOn(x, '/');
    if '/' !in x {
      SplitWithoutSeparator(x, '/');
    } else {
      SplitWithSeparator(x, '/');
    }
  }

  /** The paths that look alike: `/products` and `/products/a/b` are both titled
      'Products', and only `/products/a` is a details page. */
  lemma ProductsListTitle(a: string, b: string)
    requires '/' !in a && '/' !in b
    ensures PageTitle("/" + "products") == Some("Products")
    ensures PageTitle("/products/" + a + "/" + b) == Some("Products")
    ensures PageTitle("/products/" + a) == Some(DetailsTitle)
  {
    TopLevelTitle("products");
    var ab := a + "/" + b;
    assert ab[|a|] == '/';
    ProductPathTitle(ab);
    assert "/products/" + ab == "/products/" + a + "/" + b;
    ProductPathTitle(a);
  }

  /** Each link's href is `/` followed by its key. */
  lemma LinkHref(l: NavLink)
    requires l in NavLinks
    ensures l.href == "/" + l.key
  {
    var i :| 0 <= i < |NavLinks| && NavLinks[i] == l;
    if i < 4 {
      assert i == 0 || i == 1 || i == 2 || i == 3;
    } else {
      assert i == 4 || i == 5 || i == 6 || i == 7;
    }
  }

  /** No key holds the separator. */
  lemma LinkKey(l: NavLink)
    requires l in NavLinks
    ensures '/' !in l.key
  {
  }

  /** The page at a link's href shows the link's own title. */
  lemma LinkTitlesItsPage(l: NavLink)
    requires l in NavLinks
    ensures PageTitle(l.href) == Some(l.title)
  {
    LinkHref(l);
    LinkKey(l);
    NavTitleMatchesTable(l.key);
    var k := l.key;
    TopLevelTitle(k);
    assert PageTitle("/" + k) == Some(l.title);
  }
}
