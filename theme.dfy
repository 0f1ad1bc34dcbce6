/** The light/dark preference: one flag in memory and the `"theme"` entry of
    local storage, written together on every toggle. */
module Theme {
  import opened Basics

  /** The initial flag: dark exactly when storage holds the string `"dark"`. */
  function ReadTheme(stored: Option<string>): (isDark: bool)
    ensures isDark <==> stored == Some("dark")
  {
    stored.Some? && stored.value == "dark"
  }

  /** `isDark ? "dark" : "light"`, the mode handed to the theme and written to storage. */
  function ModeName(isDark: bool): (m: string)
    ensures m == "dark" || m == "light"
    ensures m == "dark" <==> isDark
    ensures ReadTheme(Some(m)) == isDark
  {
    if isDark then "dark" else "light"
  }

  class ThemeProvider {
    var isDark: bool
    var stored: Option<string>

    /** Re-reading storage reproduces the flag. */
    ghost predicate Synced()
      reads this
    {
      ReadTheme(stored) == isDark
    }

    constructor (stored: Option<string>)
      ensures this.stored == stored && isDark == ReadTheme(stored)
      ensures Synced()
    {
      this.stored := stored;
      isDark := ReadTheme(stored);
    }

    /** The theme mode selected for the current flag. */
    function Mode(): (m: string)
      reads this
      ensures m == "dark" <==> isDark
    {
      ModeName(isDark)
    }

    /** `toggleDark`: negate the flag and write the new mode to storage in the same step. */
    method ToggleDark()
      modifies this
      ensures isDark == !old(isDark)
      ensures stored == Some(ModeName(isDark))
      ensures Synced()
    {
      stored := Some(ModeName(!isDark));
      isDark := !isDark;
    }
  }

  /** Toggling twice restores the flag and leaves storage in step with it. */
  method ToggleTwice(t: ThemeProvider)
    modifies t
    ensures t.isDark == old(t.isDark)
    ensures t.Synced()
  {
    t.ToggleDark();
    t.ToggleDark();
  }
}
