/** The application theme: a string kept in local storage, toggled from the navigation bar. */
module AppTheme {
  const Light: string := "light"
  const Dark: string := "dark"

  /** The value `useLocalStorage` starts from when nothing is stored. */
  const DefaultTheme: string := Light

  /** `toggleTheme`: light becomes dark; every other stored value becomes light. */
  function ToggleTheme(theme: string): (next: string)
    ensures theme == Light ==> next == Dark
    ensures theme != Light ==> next == Light
    ensures next == Light || next == Dark
  {
    if theme == Light then Dark else Light
  }

  /** The class on the application's root element. */
  function ThemeClass(theme: string): (cls: string)
    ensures cls == "theme-dark" <==> theme == Dark
    ensures cls != "theme-dark" ==> cls == "theme-light"
  {
    if theme == Dark then "theme-dark" else "theme-light"
  }

  /** Two toggles restore either of the two themes. */
  lemma ToggleTwice(theme: string)
    requires theme == Light || theme == Dark
    ensures ToggleTheme(ToggleTheme(theme)) == theme
  {
  }

  /** A fresh install shows the light class, and one toggle switches it to dark. */
  lemma DefaultThenToggle()
    ensures ThemeClass(DefaultTheme) == "theme-light"
    ensures ThemeClass(ToggleTheme(DefaultTheme)) == "theme-dark"
  {
  }
}
