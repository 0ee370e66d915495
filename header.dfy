/**
 * The site header: a dark/light theme switch persisted in the browser's
 * local storage (falling back to the operating system's colour-scheme
 * preference when nothing is saved), a "scrolled" flag for the page offset,
 * navigation buttons that scroll to a section, and the mobile menu flag.
 * Local storage is a map from keys to strings, the document's `data-theme`
 * attribute an optional string, and the DOM scroll an action the navigation
 * returns (the id scrolled to) instead of performing. The component is
 * modelled as written; the application's root (`App.jsx`) renders the
 * separate `Navbar` component, not this one.
 */
module Header {
  import opened Options
  import opened JsString

  const ThemeKey: string := "theme"
  const SectionPrefix: string := "/#"
  const ScrollThreshold: int := 50

  /** The `href` of each item of the header's `navItems`, in menu order. */
  const NavHrefs: seq<string> := ["/#hero", "/#about", "/#skills", "/#projects", "/#achievements", "/#contact"]

  function ThemeName(dark: bool): (name: string)
    ensures name == "dark" || name == "light"
    ensures (name == "dark") == dark
  {
    if dark then "dark" else "light"
  }

  /** `localStorage.getItem(key)`: `null` for a key that was never set. */
  function GetItem(storage: map<string, string>, key: string): (r: Option<string>)
    ensures r.Some? <==> key in storage
    ensures r.Some? ==> r.value == storage[key]
  {
    if key in storage then Some(storage[key]) else None
  }

  /**
   * The mount-time decision: dark when the saved theme is 'dark', or when no
   * truthy value is saved and the system prefers dark. A saved 'light' (or
   * any other non-empty value) wins over the system preference.
   */
  function InitialDarkMode(savedTheme: Option<string>, osPrefersDark: bool): (dark: bool)
    ensures savedTheme == Some("dark") ==> dark
    ensures savedTheme == Some("light") ==> !dark
    ensures savedTheme.Some? && savedTheme.value != "" && savedTheme.value != "dark" ==> !dark
    ensures savedTheme == None || savedTheme == Some("") ==> dark == osPrefersDark
  {
    savedTheme == Some("dark") || (!Truthy(savedTheme) && osPrefersDark)
  }

  /**
   * `href.startsWith('/#') ? href.substring(2) : nothing`: the section id of a
   * navigation target, which gives the href back when prefixed with '/#'.
   */
  function SectionId(href: string): (id: Option<string>)
    ensures id.Some? <==> StartsWith(href, SectionPrefix)
    ensures id.Some? ==> SectionPrefix + id.value == href
  {
    if StartsWith(href, SectionPrefix) then Some(SubstringFrom(href, 2)) else None
  }

  /** Every id is recovered from its '/#' href. */
  lemma SectionIdRoundTrip(id: string)
    ensures SectionId(SectionPrefix + id) == Some(id)
  {
    var href := SectionPrefix + id;
    assert href[..2] == SectionPrefix;
    assert href[2..] == id;
  }

  /** Every item of the header's `navItems` is a section link, so every one renders as a scroll button. */
  lemma NavItemsAreSectionLinks()
    ensures forall i :: 0 <= i < |NavHrefs| ==> SectionId(NavHrefs[i]).Some?
  {
    forall i | 0 <= i < |NavHrefs| ensures SectionId(NavHrefs[i]).Some? {
      assert NavHrefs[i][..2] == SectionPrefix;
    }
  }

  /** The theme: the component's flag, the document's `data-theme` attribute and local storage. */
  datatype Theme = Theme(isDarkMode: bool, dataTheme: Option<string>, storage: map<string, string>)

  /** The attribute and the stored value both name the mode the component shows. */
  ghost predicate Persisted(t: Theme) {
    ThemeKey in t.storage && t.storage[ThemeKey] == ThemeName(t.isDarkMode)
    && t.dataTheme == Some(ThemeName(t.isDarkMode))
  }

  /** The mount effect: switch to dark (flag and attribute) when the initial decision says so; otherwise nothing. */
  function Mounted(t: Theme, osPrefersDark: bool): (r: Theme)
    ensures r.storage == t.storage
    ensures InitialDarkMode(GetItem(t.storage, ThemeKey), osPrefersDark) ==> r.isDarkMode && r.dataTheme == Some("dark")
    ensures !InitialDarkMode(GetItem(t.storage, ThemeKey), osPrefersDark) ==> r == t
  {
    if InitialDarkMode(GetItem(t.storage, ThemeKey), osPrefersDark) then t.(isDarkMode := true, dataTheme := Some("dark"))
    else t
  }

  /** `toggleDarkMode`: the mode flips and its name goes to both the attribute and storage key 'theme'. */
  function Toggled(t: Theme): (r: Theme)
    ensures r.isDarkMode == !t.isDarkMode
    ensures Persisted(r)
    ensures forall k :: k != ThemeKey ==> (k in r.storage <==> k in t.storage)
    ensures forall k :: k != ThemeKey && k in t.storage ==> r.storage[k] == t.storage[k]
  {
    var newMode := !t.isDarkMode;
    Theme(newMode, Some(ThemeName(newMode)), t.storage[ThemeKey := ThemeName(newMode)])
  }

  /** Two toggles give the original mode back, stored consistently; from a persisted theme, exactly the original theme. */
  lemma ToggleTwice(t: Theme)
    ensures Toggled(Toggled(t)).isDarkMode == t.isDarkMode
    ensures Persisted(Toggled(Toggled(t)))
    ensures Persisted(t) ==> Toggled(Toggled(t)) == t
  {
    if Persisted(t) {
      assert Toggled(Toggled(t)).storage == t.storage;
    }
  }

  /**
   * A toggled choice survives a reload: a freshly mounted header (light until
   * the mount effect runs) reading the same storage shows the same mode,
   * whatever the system prefers.
   */
  lemma ToggleSurvivesReload(t: Theme, attribute: Option<string>, osPrefersDark: bool)
    ensures Mounted(Theme(false, attribute, Toggled(t).storage), osPrefersDark).isDarkMode == Toggled(t).isDarkMode
  {
    var stored := Toggled(t).storage;
    assert GetItem(stored, ThemeKey) == Some(ThemeName(!t.isDarkMode));
  }

  /** The Header component's state together with the storage and document attribute it writes. */
  class HeaderBar {
    var isDarkMode: bool
    var isMobileMenuOpen: bool
    var isScrolled: bool
    var dataTheme: Option<string>
    var storage: map<string, string>

    function ThemeState(): Theme
      reads this
    {
      Theme(isDarkMode, dataTheme, storage)
    }

    /** The initial `useState` values, over whatever the browser already holds. */
    constructor (savedStorage: map<string, string>, attribute: Option<string>)
      ensures !isDarkMode && !isMobileMenuOpen && !isScrolled
      ensures storage == savedStorage && dataTheme == attribute
    {
      isDarkMode, isMobileMenuOpen, isScrolled := false, false, false;
      storage, dataTheme := savedStorage, attribute;
    }

    /** The mount effect's theme part; installing the scroll listener is the `OnScroll` event. */
    method Mount(osPrefersDark: bool)
      modifies this
      ensures ThemeState() == Mounted(old(ThemeState()), osPrefersDark)
      ensures isMobileMenuOpen == old(isMobileMenuOpen) && isScrolled == old(isScrolled)
    {
      var savedTheme := GetItem(storage, ThemeKey);
      if savedTheme == Some("dark") || (!Truthy(savedTheme) && osPrefersDark) {
        isDarkMode := true;
        dataTheme := Some("dark");
      }
    }

    /** `handleScroll`, given the page's vertical offset. */
    method OnScroll(scrollY: int)
      modifies this`isScrolled
      ensures isScrolled <==> scrollY > ScrollThreshold
    {
      isScrolled := scrollY > ScrollThreshold;
    }

    method ToggleDarkMode()
      modifies this
      ensures ThemeState() == Toggled(old(ThemeState()))
      ensures isMobileMenuOpen == old(isMobileMenuOpen) && isScrolled == old(isScrolled)
    {
      var newMode := !isDarkMode;
      isDarkMode := newMode;
      dataTheme := Some(if newMode then "dark" else "light");
      storage := storage[ThemeKey := if newMode then "dark" else "light"];
    }

    /**
     * `scrollToSection`: for a '/#' href whose id names an element of the
     * page, returns that id as the section scrolled into view; always closes
     * the mobile menu, and touches nothing else. `getElementById('')` finds
     * no element, so the bare href '/#' scrolls nowhere whatever the page holds.
     */
    method ScrollToSection(href: string, elementIds: set<string>) returns (scrolledTo: Option<string>)
      modifies this`isMobileMenuOpen
      ensures !isMobileMenuOpen
      ensures scrolledTo.Some? <==>
                SectionId(href).Some? && SectionId(href).value != "" && SectionId(href).value in elementIds
      ensures scrolledTo.Some? ==> SectionPrefix + scrolledTo.value == href && scrolledTo == SectionId(href)
    {
      scrolledTo := None;
      if StartsWith(href, SectionPrefix) {
        var id := SubstringFrom(href, 2);
        if id != "" && id in elementIds {
          scrolledTo := Some(id);
        }
      }
      isMobileMenuOpen := false;
    }

    /** The menu button. */
    method ToggleMobileMenu()
      modifies this`isMobileMenuOpen
      ensures isMobileMenuOpen == !old(isMobileMenuOpen)
    {
      isMobileMenuOpen := !isMobileMenuOpen;
    }
  }
}
