/** The theme context of `client/src/contexts/ThemeProvider.tsx`: the stored
    theme, `toggleTheme`, and the effect that puts the theme on the document
    root's class list and the body's class name. The operating system's
    colour-scheme preference (`matchMedia`) is an input. */
module ThemeProvider {
  datatype ThemeOption = Dark | Light | System

  /** `getTheme`: "dark" stays dark, "system" follows the operating system,
      anything else is light. */
  function GetTheme(option: ThemeOption, prefersDark: bool): (r: ThemeOption)
    ensures r != System
    ensures option == Dark ==> r == Dark
    ensures option == Light ==> r == Light
    ensures option == System ==> (r == Dark <==> prefersDark)
  {
    match option
    case Dark => Dark
    case System => if prefersDark then Dark else Light
    case Light => Light
  }

  /** A resolved theme is its own resolution. */
  lemma GetThemeIdempotent(option: ThemeOption, prefersDark: bool, laterPrefersDark: bool)
    ensures GetTheme(GetTheme(option, prefersDark), laterPrefersDark) == GetTheme(option, prefersDark)
  {
  }

  /** The class a theme puts on the root: its own name. */
  function ClassName(t: ThemeOption): (r: string)
    ensures r == "dark" <==> t == Dark
    ensures r == "light" <==> t == Light
  {
    match t
    case Dark => "dark"
    case Light => "light"
    case System => "system"
  }

  /** The body's class name, chosen by `theme === "dark"`. */
  function BodyClass(theme: ThemeOption): (r: string)
    ensures |r| >= 8 && (r[..8] == "bg-black" <==> theme == Dark)
  {
    if theme == Dark then "bg-black text-white h-screen"
    else
      var light := "bg-white text-black h-screen";
      assert light[..8][3] == 'w' && "bg-black"[3] == 'b';
      light
  }

  /** `classList.remove("light", "dark")`. */
  function WithoutThemes(classes: seq<string>): (r: seq<string>)
    ensures forall c :: c in r <==> c in classes && c != "light" && c != "dark"
    ensures |r| <= |classes|
  {
    if classes == [] then []
    else if classes[0] == "light" || classes[0] == "dark" then WithoutThemes(classes[1..])
    else [classes[0]] + WithoutThemes(classes[1..])
  }

  /** `classList.add(c)`: appended unless already present. */
  function AddClass(classes: seq<string>, c: string): (r: seq<string>)
    ensures forall x :: x in r <==> x in classes || x == c
  {
    if c in classes then classes else classes + [c]
  }

  predicate Distinct(xs: seq<string>)
  {
    forall i, j :: 0 <= i < j < |xs| ==> xs[i] != xs[j]
  }

  /** The class list the effect leaves: the other classes kept in order and
      exactly one theme class. */
  function EffectClasses(classes: seq<string>, resolved: ThemeOption): (r: seq<string>)
    ensures forall c :: c in r <==> (c in classes && c != "light" && c != "dark") || c == ClassName(resolved)
  {
    AddClass(WithoutThemes(classes), ClassName(resolved))
  }

  lemma {:induction false} WithoutThemesDistinct(classes: seq<string>)
    requires Distinct(classes)
    ensures Distinct(WithoutThemes(classes))
    decreases |classes|
  {
    if classes != [] {
      assert Distinct(classes[1..]);
      WithoutThemesDistinct(classes[1..]);
      var rest := WithoutThemes(classes[1..]);
      if classes[0] != "light" && classes[0] != "dark" {
        assert classes[0] !in classes[1..];
        assert classes[0] !in rest;
        var r := [classes[0]] + rest;
        forall i, j | 0 <= i < j < |r| ensures r[i] != r[j] {
          if i == 0 {
            assert r[j] == rest[j - 1];
            assert r[j] in rest;
          } else {
            assert r[i] == rest[i - 1] && r[j] == rest[j - 1];
          }
        }
      }
    }
  }

  /** After the effect the root holds exactly one of "light" and "dark" (the
      resolved theme), every other class it held before and nothing else,
      and no class twice if it had none twice before. */
  lemma EffectClassList(classes: seq<string>, theme: ThemeOption, prefersDark: bool)
    ensures var r := EffectClasses(classes, GetTheme(theme, prefersDark));
      && ("dark" in r <==> GetTheme(theme, prefersDark) == Dark)
      && ("light" in r <==> GetTheme(theme, prefersDark) == Light)
      && (forall c :: c != "light" && c != "dark" ==> (c in r <==> c in classes))
      && (Distinct(classes) ==> Distinct(r))
  {
    var resolved := GetTheme(theme, prefersDark);
    var w := WithoutThemes(classes);
    if Distinct(classes) {
      WithoutThemesDistinct(classes);
      var r := EffectClasses(classes, resolved);
      if ClassName(resolved) !in w {
        forall i, j | 0 <= i < j < |r| ensures r[i] != r[j] {
          if j == |w| {
            assert r[i] == w[i];
          } else {
            assert r[i] == w[i] && r[j] == w[j];
          }
        }
      }
    }
  }

  class ThemeProvider {
    var theme: ThemeOption
    /** `document.documentElement.classList`. */
    var rootClasses: seq<string>
    /** `document.body.className`. */
    var bodyClass: string

    /** `theme === "dark"`. */
    function IsDark(): bool
      reads this
    {
      theme == Dark
    }

    /** `useState(getTheme("system"))`: the initial theme is the operating
        system's, resolved. */
    constructor (prefersDark: bool, rootClasses: seq<string>, bodyClass: string)
      ensures theme == GetTheme(System, prefersDark) && theme != System
      ensures IsDark() <==> prefersDark
      ensures this.rootClasses == rootClasses && this.bodyClass == bodyClass
    {
      theme := if prefersDark then Dark else Light;
      this.rootClasses := rootClasses;
      this.bodyClass := bodyClass;
    }

    /** `toggleTheme`: the resolved option is stored, never "system". */
    method ToggleTheme(option: ThemeOption, prefersDark: bool)
      modifies this
      ensures theme == GetTheme(option, prefersDark) && theme != System
      ensures rootClasses == old(rootClasses) && bodyClass == old(bodyClass)
    {
      theme := GetTheme(option, prefersDark);
    }

    /** `setTheme`, the raw state setter the context also exposes. */
    method SetTheme(option: ThemeOption)
      modifies this
      ensures theme == option
      ensures rootClasses == old(rootClasses) && bodyClass == old(bodyClass)
    {
      theme := option;
    }

    /** The effect run after each change of `theme`. */
    method Effect(prefersDark: bool)
      modifies this
      ensures rootClasses == EffectClasses(old(rootClasses), GetTheme(theme, prefersDark))
      ensures bodyClass == BodyClass(theme)
      ensures theme == old(theme)
    {
      rootClasses := WithoutThemes(rootClasses);
      rootClasses := AddClass(rootClasses, ClassName(GetTheme(theme, prefersDark)));
      bodyClass := BodyClass(theme);
    }
  }

  /** For a stored theme other than "system" (all the provider itself and
      `toggleTheme` ever store) the body's colours agree with the root's
      class: dark text on white exactly when the root is "light". */
  lemma BodyMatchesRoot(classes: seq<string>, theme: ThemeOption, prefersDark: bool)
    requires theme != System
    ensures ("dark" in EffectClasses(classes, GetTheme(theme, prefersDark))) <==>
      BodyClass(theme) == "bg-black text-white h-screen"
  {
    EffectClassList(classes, theme, prefersDark);
  }

  /** A "system" theme stored through `setTheme` on a dark operating system
      would give a dark root under a white body. */
  lemma SystemThemeMismatch(classes: seq<string>)
    ensures "dark" in EffectClasses(classes, GetTheme(System, true))
    ensures BodyClass(System) == "bg-white text-black h-screen"
  {
    EffectClassList(classes, System, true);
  }
}
