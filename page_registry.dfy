/** The page registry: page constructors looked up by page name. Names are
    kept in a `std::map`, so listing them yields them in string order. */
module PageRegistries {
  import opened Common
  import opened StringMaps

  /** The constructors `register_default_pages` creates, and any other
      page constructor (identified by a number). The constructors' own
      behaviour is not part of this model. */
  datatype PageConstructor = MainPage | MainMenu | SelectorTest | ErrorPage | IntSettingPage | OtherPage(id: nat)

  /** The registry after `register_page(name, c)` on `m`: unchanged when the
      name is empty or the pointer is null. */
  function RegisterOf(m: map<string, PageConstructor>, name: string, c: Option<PageConstructor>): (r: map<string, PageConstructor>)
    ensures name == [] || c.None? ==> r == m
    ensures name != [] && c.Some? ==> name in r && r[name] == c.value && r.Keys == m.Keys + {name}
    ensures forall k :: k != name ==> (k in r <==> k in m) && (k in m ==> r[k] == m[k])
  {
    if name == [] || c.None? then m else m[name := c.value]
  }

  /** Registering a name a second time replaces its constructor and leaves
      the count as it was. */
  lemma ReregisterKeepsCount(m: map<string, PageConstructor>, name: string, c: PageConstructor)
    requires name != [] && name in m
    ensures |RegisterOf(m, name, Some(c))| == |m|
    ensures RegisterOf(m, name, Some(c))[name] == c
  {
    StoreSize(m, name, c, name, c);
  }

  /** The default registrations, in the order `register_default_pages` and
      `register_internal_pages` make them. */
  function DefaultsOf(m: map<string, PageConstructor>): map<string, PageConstructor>
  {
    RegisterOf(RegisterOf(RegisterOf(RegisterOf(RegisterOf(m,
      "main", Some(MainPage)), "main_menu", Some(MainMenu)), "selector_test", Some(SelectorTest)),
      "__error__", Some(ErrorPage)), "__int_setting__", Some(IntSettingPage))
  }

  /** The names a freshly defaulted registry lists, in listing order: the
      two internal pages sort first because `_` is below every lower-case
      letter. */
  const DEFAULT_NAMES: seq<string> := ["__error__", "__int_setting__", "main", "main_menu", "selector_test"]

  /** `get_instance` hands out one registry; a class with one object models
      it. */
  class PageRegistry {
    var pages: map<string, PageConstructor>

    constructor ()
      ensures pages == map[]
    {
      pages := map[];
    }

    /** `register_page`: refuses an empty name and a null constructor;
        otherwise stores (or replaces) the entry. */
    method RegisterPage(name: string, c: Option<PageConstructor>) returns (ok: bool)
      modifies this
      ensures ok <==> name != [] && c.Some?
      ensures pages == RegisterOf(old(pages), name, c)
      ensures ok ==> GetPage(name) == c
      ensures |pages| == |old(pages)| + (if ok && name !in old(pages) then 1 else 0)
    {
      if name == [] || c.None? {
        return false;
      }
      StoreSize(pages, name, c.value, name, c.value);
      pages := pages[name := c.value];
      return true;
    }

    /** `get_page`: the constructor, or null. */
    function GetPage(name: string): (c: Option<PageConstructor>)
      reads this
      ensures c.Some? <==> HasPage(name)
      ensures c.Some? ==> c.value == pages[name]
    {
      if name in pages then Some(pages[name]) else None
    }

    predicate HasPage(name: string)
      reads this
      ensures HasPage(name) ==> GetPageCount() >= 1
    {
      name in pages
    }

    /** `unregister_page`: true exactly when the name was registered. */
    method UnregisterPage(name: string) returns (removed: bool)
      modifies this
      ensures removed <==> name in old(pages)
      ensures pages == old(pages) - {name} && !HasPage(name)
      ensures |pages| == |old(pages)| - (if removed then 1 else 0)
    {
      EraseSize(pages, name);
      if name in pages {
        pages := pages - {name};
        return true;
      }
      return false;
    }

    method ClearAllPages()
      modifies this
      ensures pages == map[] && GetPageCount() == 0
    {
      pages := map[];
    }

    /** `get_page_count`. */
    function GetPageCount(): (n: nat)
      reads this
      ensures n == 0 <==> pages == map[]
    {
      |pages|
    }

    /** `get_all_page_names`: every registered name once, in map order, as
        many as `get_page_count` reports. */
    method GetAllPageNames() returns (names: seq<string>)
      ensures StrictlySorted(names)
      ensures forall x :: x in names <==> HasPage(x)
      ensures |names| == GetPageCount()
    {
      names := SortedKeys(pages);
    }

    /** `register_default_pages`, with `register_internal_pages`. */
    method RegisterDefaultPages()
      modifies this
      ensures pages == DefaultsOf(old(pages))
    {
      var ok := RegisterPage("main", Some(MainPage));
      ok := RegisterPage("main_menu", Some(MainMenu));
      ok := RegisterPage("selector_test", Some(SelectorTest));
      RegisterInternalPages();
    }

    /** `register_internal_pages`. */
    method RegisterInternalPages()
      modifies this
      ensures pages == RegisterOf(RegisterOf(old(pages), "__error__", Some(ErrorPage)), "__int_setting__", Some(IntSettingPage))
    {
      var ok := RegisterPage("__error__", Some(ErrorPage));
      ok := RegisterPage("__int_setting__", Some(IntSettingPage));
    }
  }

  /** The default names are in listing order. */
  lemma DefaultNamesSorted()
    ensures StrictlySorted(DEFAULT_NAMES)
  {
    var s := DEFAULT_NAMES;
    assert LexLt(s[0], s[1]) by {
      assert s[0][..2] == s[1][..2] && s[0][2] < s[1][2];
      assert LexLt(s[0][2..], s[1][2..]);
      assert LexLt(s[0][1..], s[1][1..]);
    }
    assert LexLt(s[1], s[2]);
    assert LexLt(s[2], s[3]) by {
      assert LexLt(s[2][4..], s[3][4..]);
      assert LexLt(s[2][3..], s[3][3..]);
      assert LexLt(s[2][2..], s[3][2..]);
      assert LexLt(s[2][1..], s[3][1..]);
    }
    assert LexLt(s[3], s[4]);
    forall i, j | 0 <= i < j < |s|
      ensures LexLt(s[i], s[j])
    {
      if j > i + 1 {
        if i + 2 == j {
          LexTransitive(s[i], s[i + 1], s[j]);
        } else if i + 3 == j {
          LexTransitive(s[i], s[i + 1], s[i + 2]);
          LexTransitive(s[i], s[i + 2], s[j]);
        } else {
          LexTransitive(s[0], s[1], s[2]);
          LexTransitive(s[0], s[2], s[3]);
          LexTransitive(s[0], s[3], s[4]);
        }
      }
    }
  }

  /** The names the defaults register on an empty registry. */
  lemma DefaultKeys()
    ensures DefaultsOf(map[]).Keys == set x | x in DEFAULT_NAMES
  {
    var m := DefaultsOf(map[]);
    assert m.Keys == {"main", "main_menu", "selector_test", "__error__", "__int_setting__"};
  }

  /** On an empty registry the defaults are exactly five pages, listed as
      `DEFAULT_NAMES`, whatever listing the registry produces. */
  lemma DefaultListing(names: seq<string>)
    requires StrictlySorted(names)
    requires forall x :: x in names <==> x in DefaultsOf(map[])
    ensures names == DEFAULT_NAMES
  {
    DefaultNamesSorted();
    DefaultKeys();
    SortedUnique(names, DEFAULT_NAMES);
  }
}
