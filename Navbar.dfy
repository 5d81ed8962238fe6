/**
  The selection and theme state of the navigation bar (navbar.tsx): the
  religion and language menus, whose language choices follow the chosen
  religion, and the dark-mode switch, which remembers the theme in
  `localStorage`. The stored theme, the system colour preference and the
  `dark` class on the document element are fields or parameters here.
*/
module Navbar {
  import opened Wrappers

  /** The entries of the religion menu, in the order `Object.keys` lists them. */
  const ReligionOrder: seq<string> := ["🙏 Hinduism", "☪️ Islam", "✝️ Christianity", "🪯 Sikhism", "☸️ Buddhism", "🕉️ Jainism", "🌍 Other"]

  /** `religionLanguages`: the languages offered for each religion. */
  const ReligionLanguages: map<string, seq<string>> := map[
    "🙏 Hinduism" := ["Hindi", "English"],
    "☪️ Islam" := ["Urdu", "Arabic", "English"],
    "✝️ Christianity" := ["English", "Spanish", "French"],
    "🪯 Sikhism" := ["Punjabi", "English"],
    "☸️ Buddhism" := ["Tibetan", "Pali", "English"],
    "🕉️ Jainism" := ["Gujarati", "Hindi", "English"],
    "🌍 Other" := ["English"]
  ]

  const InitialReligion: string := "🙏 Hinduism"
  const InitialLanguage: string := "English"

  /**
    The table is what the menus rely on: its keys are the religion menu,
    listed once each, and every list is non-empty, so `[0]` after a change
    of religion always exists.
  */
  lemma TableWellFormed()
    ensures forall r :: r in ReligionLanguages ==> |ReligionLanguages[r]| > 0
    ensures forall r :: r in ReligionLanguages <==> r in ReligionOrder
    ensures forall i, j :: 0 <= i < j < |ReligionOrder| ==> ReligionOrder[i] != ReligionOrder[j]
    ensures InitialReligion in ReligionLanguages && InitialLanguage in ReligionLanguages[InitialReligion]
  {
    forall i, j | 0 <= i < j < |ReligionOrder|
      ensures ReligionOrder[i] != ReligionOrder[j]
    {
      assert ReligionOrder[i][0] != ReligionOrder[j][0];
    }
  }

  /**
    The theme the first effect puts in place: dark exactly when "dark" is
    stored, or nothing is stored and the system prefers dark; any other
    stored value means light.
  */
  function InitialDark(storedTheme: Option<string>, prefersDark: bool): (dark: bool)
    ensures storedTheme == Some("dark") ==> dark
    ensures storedTheme.None? ==> dark == prefersDark
    ensures storedTheme.Some? && storedTheme.value != "dark" ==> !dark
  {
    storedTheme == Some("dark") || (storedTheme.None? && prefersDark)
  }

  /** The value `toggleDarkMode` stores. */
  function ThemeName(dark: bool): (name: string)
    ensures (name == "dark") == dark
  {
    if dark then "dark" else "light"
  }

  /** A theme once stored by the switch decides the next start, whatever the system prefers. */
  lemma StoredThemeWins(dark: bool, prefersDark: bool)
    ensures InitialDark(Some(ThemeName(dark)), prefersDark) == dark
  {
  }

  class NavbarState {
    var isDarkMode: bool
    /** Whether the document element carries the `dark` class, which `toggleDarkMode` tests. */
    var darkClass: bool
    /** `localStorage.getItem('theme')`. */
    var storedTheme: Option<string>
    var selectedReligion: string
    var selectedLanguage: string

    /** The chosen language is one the chosen religion offers, and the icon matches the document's theme. */
    ghost predicate Valid()
      reads this
    {
      && selectedReligion in ReligionLanguages
      && selectedLanguage in ReligionLanguages[selectedReligion]
      && isDarkMode == darkClass
    }

    /** The component as it is after mounting: initial state, then the theme effect. */
    constructor(storedTheme: Option<string>, prefersDark: bool)
      ensures Valid()
      ensures selectedReligion == InitialReligion && selectedLanguage == InitialLanguage
      ensures isDarkMode == InitialDark(storedTheme, prefersDark)
      ensures this.storedTheme == storedTheme
    {
      selectedReligion := InitialReligion;
      selectedLanguage := InitialLanguage;
      this.storedTheme := storedTheme;
      var dark := InitialDark(storedTheme, prefersDark);
      darkClass := dark;
      isDarkMode := dark;
    }

    /** The options of the language menu. */
    function LanguageChoices(): (choices: seq<string>)
      reads this
      requires Valid()
      ensures selectedLanguage in choices && |choices| > 0
      ensures choices == ReligionLanguages[selectedReligion]
    {
      ReligionLanguages[selectedReligion]
    }

    /** The religion menu's `onChange`: the language falls back to the first one the new religion offers. */
    method ChangeReligion(religion: string)
      requires Valid() && religion in ReligionLanguages
      modifies this`selectedReligion, this`selectedLanguage
      ensures Valid()
      ensures selectedReligion == religion
      ensures selectedLanguage == ReligionLanguages[religion][0]
    {
      TableWellFormed();
      selectedReligion := religion;
      selectedLanguage := ReligionLanguages[religion][0];
    }

    /** The language menu's `onChange`, which only offers the current religion's languages. */
    method ChangeLanguage(language: string)
      requires Valid() && language in LanguageChoices()
      modifies this`selectedLanguage
      ensures Valid() && selectedLanguage == language
    {
      selectedLanguage := language;
    }

    /** `toggleDarkMode`: flips the theme and stores the new one. */
    method ToggleDarkMode()
      requires Valid()
      modifies this`isDarkMode, this`darkClass, this`storedTheme
      ensures Valid()
      ensures isDarkMode == !old(isDarkMode)
      ensures storedTheme == Some(ThemeName(isDarkMode))
    {
      if darkClass {
        darkClass := false;
        storedTheme := Some("light");
        isDarkMode := false;
      } else {
        darkClass := true;
        storedTheme := Some("dark");
        isDarkMode := true;
      }
    }
  }
}
