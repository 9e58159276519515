/** The light/dark theme switch (js/theme.js): the theme kept in the
    browser's local storage, the `data-theme` attribute of the document, and
    the toggle button's icon and label. */
module Theme {
  import opened Js

  /** The page's local storage, key to value. */
  type Store = map<string, string>

  const ThemeKey := "theme"
  const Light := "light"
  const Dark := "dark"
  const Moon := "\U{1F319}"
  const Sun := "\U{2600}\U{FE0F}"

  /** The toggle button's content and `aria-label`. */
  datatype Toggle = Toggle(icon: string, ariaLabel: string)

  /** What the theme code reads and writes: the storage, the document's
      `data-theme` attribute (absent until set), and the toggle button when
      the page has one. */
  datatype Page = Page(store: Store, dataTheme: Option<string>, toggle: Option<Toggle>)

  /** `localStorage.getItem('theme')`. */
  function StoredTheme(store: Store): Option<string> {
    if ThemeKey in store then Some(store[ThemeKey]) else None
  }

  /** `getCurrentTheme`: the stored theme, or "light" when nothing or the
      empty string is stored. */
  function CurrentTheme(store: Store): (theme: string)
    ensures theme != ""
    ensures Truthy(StoredTheme(store)) ==> theme == store[ThemeKey]
    ensures !Truthy(StoredTheme(store)) ==> theme == Light
  {
    OrElse(StoredTheme(store), Light)
  }

  /** The theme the toggle switches to: "dark" from "light", and "light"
      from anything else. */
  function Opposite(theme: string): (other: string)
    ensures other in {Light, Dark}
    ensures other == Dark <==> theme == Light
  {
    if theme == Light then Dark else Light
  }

  /** `updateThemeIcon`: a moon while the theme is light, a sun otherwise,
      and a label naming the theme the toggle leads to. */
  function Icon(theme: string): (t: Toggle)
    ensures t.icon == Moon <==> theme == Light
    ensures t.icon == Sun <==> theme != Light
    ensures t.ariaLabel == "Switch to " + Opposite(theme) + " mode"
  {
    Toggle(if theme == Light then Moon else Sun, "Switch to " + Opposite(theme) + " mode")
  }

  /** `setTheme`: the attribute, the stored value and the button all follow
      `theme`; nothing else in storage changes. */
  function SetTheme(p: Page, theme: string): (q: Page)
    ensures q.dataTheme == Some(theme)
    ensures StoredTheme(q.store) == Some(theme)
    ensures forall k :: k != ThemeKey ==> (k in q.store <==> k in p.store)
    ensures forall k :: k != ThemeKey && k in p.store ==> q.store[k] == p.store[k]
    ensures q.toggle.Some? <==> p.toggle.Some?
    ensures q.toggle.Some? ==> q.toggle.value == Icon(theme)
  {
    Page(p.store[ThemeKey := theme], Some(theme), if p.toggle.Some? then Some(Icon(theme)) else None)
  }

  /** `toggleTheme`: switches to the opposite of the current theme. */
  function ToggleTheme(p: Page): (q: Page)
    ensures CurrentTheme(q.store) == Opposite(CurrentTheme(p.store))
    ensures q.dataTheme == Some(CurrentTheme(q.store))
  {
    SetTheme(p, Opposite(CurrentTheme(p.store)))
  }

  /** `initTheme`: applies the current theme, writing "light" back when
      nothing usable was stored. */
  function InitTheme(p: Page): (q: Page)
    ensures CurrentTheme(q.store) == CurrentTheme(p.store)
    ensures q.dataTheme == Some(CurrentTheme(p.store))
    ensures Truthy(StoredTheme(p.store)) ==> q.store == p.store
    ensures !Truthy(StoredTheme(p.store)) ==> StoredTheme(q.store) == Some(Light)
  {
    SetTheme(p, CurrentTheme(p.store))
  }

  /** A theme that was set reads back, unless it is the empty string,
      which reads back as "light". */
  lemma SetThenGet(p: Page, theme: string)
    ensures CurrentTheme(SetTheme(p, theme).store) == if theme == "" then Light else theme
  {
  }

  /** Toggling twice returns to the starting theme when it was "light" or
      "dark"; any other stored theme goes to "light" and then "dark". */
  lemma ToggleTwice(p: Page)
    ensures var t := CurrentTheme(p.store);
      CurrentTheme(ToggleTheme(ToggleTheme(p)).store) == if t == Light then Light else Dark
  {
    var t := CurrentTheme(p.store);
    assert CurrentTheme(ToggleTheme(p).store) == Opposite(t);
  }

  /** After any toggle the theme is "light" or "dark". */
  lemma ToggleLandsOnKnownTheme(p: Page)
    ensures CurrentTheme(ToggleTheme(p).store) in {Light, Dark}
  {
  }

  /** The button's label names the theme the next toggle will apply. */
  lemma LabelNamesNextTheme(p: Page, theme: string)
    requires theme != "" && p.toggle.Some?
    ensures SetTheme(p, theme).toggle.value.ariaLabel
         == "Switch to " + CurrentTheme(ToggleTheme(SetTheme(p, theme)).store) + " mode"
  {
  }

  /** Loading a second page applies the same theme and stores nothing new. */
  lemma InitTwice(p: Page)
    ensures InitTheme(InitTheme(p)).store == InitTheme(p).store
    ensures InitTheme(InitTheme(p)).dataTheme == InitTheme(p).dataTheme
  {
  }
}
