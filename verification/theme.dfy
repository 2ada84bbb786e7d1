/** The light/dark theme switch (`initThemeToggle` in script.js). The theme is the string
    stored under the `data-theme` attribute and the `"theme"` storage key; storage and the
    document are left out, only the decisions made on those strings are modelled. */
module Theme {

  import opened Wrappers

  const Dark: string := "dark"
  const Light: string := "light"

  /** The icon class shown on the toggle button: `fa-sun` or `fa-moon`. */
  datatype Icon = Sun | Moon

  /** The theme applied on page load from the saved preference (`getItem` returns `null`
      when nothing is saved, modelled as `None`). The `||` fallback also replaces a saved
      empty string, which JavaScript treats as false. */
  function InitialTheme(saved: Option<string>): (theme: string)
    ensures saved.Some? && saved.value != "" ==> theme == saved.value
    ensures saved.None? || saved.value == "" ==> theme == Dark
    ensures theme != ""
  {
    match saved
    case Some(t) => if t != "" then t else Dark
    case None => Dark
  }

  /** The theme after one click: `"dark"` becomes `"light"`, anything else becomes `"dark"`. */
  function Toggle(current: string): (next: string)
    ensures next == Light <==> current == Dark
    ensures next == Dark <==> current != Dark
    ensures next == Dark || next == Light
  {
    if current == Dark then Light else Dark
  }

  /** What a click saves is what the next page load applies: `setItem` after the flip,
      then `getItem(...) || "dark"` on reload. */
  lemma ToggleSurvivesReload(current: string)
    ensures InitialTheme(Some(Toggle(current))) == Toggle(current)
  {
  }

  /** The sun is shown exactly when the theme is dark. */
  function IconFor(theme: string): (icon: Icon)
    ensures icon == Sun <==> theme == Dark
    ensures icon == Moon <==> theme != Dark
  {
    if theme == Dark then Sun else Moon
  }

  /** The theme after `k` clicks. */
  function ToggleTimes(theme: string, k: nat): string
    decreases k
  {
    if k == 0 then theme else Toggle(ToggleTimes(theme, k - 1))
  }

  /** On the two themes the script writes, two clicks restore the original theme. */
  lemma ToggleTwice(theme: string)
    requires theme == Dark || theme == Light
    ensures Toggle(Toggle(theme)) == theme
  {
  }

  /** Any other saved value is not restored: two clicks land on `"light"`. */
  lemma ToggleTwiceNormalises(theme: string)
    requires theme != Dark && theme != Light
    ensures Toggle(Toggle(theme)) == Light
  {
  }

  /** Every click swaps the icon. */
  lemma ToggleSwapsIcon(theme: string)
    ensures IconFor(Toggle(theme)) != IconFor(theme)
  {
  }

  /** Starting from one of the two themes, an even number of clicks keeps it and an odd
      number switches it; after at least one click the theme is always one of the two. */
  lemma {:induction false} ToggleTimesParity(theme: string, k: nat)
    ensures (theme == Dark || theme == Light) ==>
              ToggleTimes(theme, k) == if k % 2 == 0 then theme else Toggle(theme)
    ensures k > 0 ==> ToggleTimes(theme, k) == Dark || ToggleTimes(theme, k) == Light
    decreases k
  {
    if k > 0 {
      ToggleTimesParity(theme, k - 1);
    }
  }
}
