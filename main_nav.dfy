/**
 * The site's main navigation bar: three fixed entries, each highlighted when
 * the current path is its own address or lies below it.
 */
module MainNav {
  import opened Strings

  datatype NavItem = NavItem(name: string, href: string)

  const Home := NavItem("Home", "/")
  const Math := NavItem("Math", "/math")
  const Read := NavItem("Read", "/read")

  /** The entries in the order they are shown. */
  const NavItems: seq<NavItem> := [Home, Math, Read]

  /** `pathname === item.href || pathname.startsWith(`${item.href}/`)` */
  predicate IsActive(pathname: string, href: string)
  {
    pathname == href || StartsWith(pathname, href + "/")
  }

  /** An entry is highlighted exactly on its own address and on the paths that continue
      it after a "/". */
  lemma IsActiveIff(pathname: string, href: string)
    ensures IsActive(pathname, href) <==>
      pathname == href || (|pathname| > |href| && pathname[..|href|] == href && pathname[|href|] == '/')
  {
    if |pathname| > |href| {
      assert pathname[..|href| + 1] == pathname[..|href|] + [pathname[|href|]];
    }
  }

  /** A sub-page activates its section, a longer name sharing the prefix does not. */
  lemma ActiveExamples()
    ensures IsActive("/math/folder/1", Math.href)
    ensures !IsActive("/mathematics", Math.href)
    ensures IsActive("/read", Read.href)
    ensures !IsActive("/reader", Read.href)
  {
    IsActiveIff("/math/folder/1", Math.href);
    IsActiveIff("/mathematics", Math.href);
    IsActiveIff("/reader", Read.href);
  }

  /** Home is highlighted on "/" and otherwise only on paths beginning "//". */
  lemma HomeActive(pathname: string)
    ensures IsActive(pathname, Home.href) <==> pathname == "/" || StartsWith(pathname, "//")
  {
  }

  /** No path highlights two entries. */
  lemma AtMostOneActive(pathname: string)
    ensures forall i, j :: 0 <= i < j < |NavItems| ==>
      !(IsActive(pathname, NavItems[i].href) && IsActive(pathname, NavItems[j].href))
  {
    IsActiveIff(pathname, Home.href);
    IsActiveIff(pathname, Math.href);
    IsActiveIff(pathname, Read.href);
    if |pathname| >= 2 {
      assert pathname[..1] == [pathname[0]];
    }
  }
}
