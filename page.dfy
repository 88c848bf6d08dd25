/**
 * Two small state rules of the portfolio page (script.js): the certificate
 * carousel, which shows one slide at a time and advances cyclically, and the
 * light/dark theme toggle.
 */
module Page {

  datatype Option<T> = None | Some(value: T)

  /** The slide after slide `i` of `n`, wrapping to the first after the last:
      `(currentIndex + 1) % totalSlides`. The index is never negative, so the
      truncating remainder of JavaScript and Dafny's `%` agree. */
  function Next(i: nat, n: nat): (j: nat)
    requires n > 0
    ensures j < n
    ensures i + 1 < n ==> j == i + 1
    ensures i == n - 1 ==> j == 0
  {
    (i + 1) % n
  }

  /** The slide shown after `k` automatic advances from slide `i`. */
  function Advanced(i: nat, n: nat, k: nat): (j: nat)
    requires n > 0
  {
    if k == 0 then i else Next(Advanced(i, n, k - 1), n)
  }

  /** `a % n` is the remainder of any decomposition `a == q * n + s` with
      `0 <= s < n`. */
  lemma ModUnique(a: int, n: int, q: int, s: int)
    requires n > 0 && 0 <= s < n && a == q * n + s
    ensures a % n == s
  {
    var q', s' := a / n, a % n;
    var d := q - q';
    assert d * n == q * n - q' * n;
    assert d * n == s' - s;
    if d > 0 {
      MulAtLeast(d, n);
    } else if d < 0 {
      MulAtLeast(-d, n);
    }
  }

  /** A positive multiple of `n` is at least `n`. */
  lemma {:induction false} MulAtLeast(d: int, n: int)
    requires d >= 1 && n > 0
    ensures d * n >= n
  {
    if d > 1 {
      MulAtLeast(d - 1, n);
      assert d * n == (d - 1) * n + n;
    }
  }

  /** One more step of the cycle from a reduced index is the reduced
      successor. */
  lemma NextOfMod(a: nat, n: nat)
    requires n > 0
    ensures Next(a % n, n) == (a + 1) % n
  {
    var q, r := a / n, a % n;
    assert a == q * n + r;
    if r + 1 < n {
      ModUnique(a + 1, n, q, r + 1);
    } else {
      assert a + 1 == (q + 1) * n + 0;
      ModUnique(a + 1, n, q + 1, 0);
    }
  }

  /** `k` automatic advances move the carousel `k` slides on, modulo the
      number of slides. */
  lemma {:induction false} AdvancedIsShift(i: nat, n: nat, k: nat)
    requires n > 0 && i < n
    ensures Advanced(i, n, k) == (i + k) % n
  {
    if k == 0 {
      ModUnique(i, n, 0, i);
    } else {
      AdvancedIsShift(i, n, k - 1);
      NextOfMod(i + k - 1, n);
    }
  }

  /** After as many advances as there are slides the carousel is back where
      it started: the auto-slide cycles through every slide. */
  lemma FullCycle(i: nat, n: nat)
    requires n > 0 && i < n
    ensures Advanced(i, n, n) == i
    ensures forall k :: 0 < k < n ==> Advanced(i, n, k) != i
  {
    AdvancedIsShift(i, n, n);
    ModUnique(i + n, n, 1, i);
    forall k | 0 < k < n
      ensures Advanced(i, n, k) != i
    {
      AdvancedIsShift(i, n, k);
      if i + k < n {
        ModUnique(i + k, n, 0, i + k);
      } else {
        ModUnique(i + k, n, 1, i + k - n);
      }
    }
  }

  /** The closure state of initCarousel: the number of slides (one dot per
      slide), the current index, the track's translation in percent and the
      dots carrying the `active` class. */
  class Carousel {
    const total: nat
    var currentIndex: nat
    var shift: int
    var active: set<nat>

    ghost predicate Valid()
      reads this
    {
      total > 0 && currentIndex < total && shift == -100 * currentIndex && active == {currentIndex}
    }

    /** initCarousel with slides present: the first slide is shown. */
    constructor (slides: nat)
      requires slides > 0
      ensures Valid() && total == slides && currentIndex == 0
    {
      total := slides;
      new;
      UpdateSlide(0);
    }

    /** updateSlide(index): the track shows slide `index`, only its dot is
        active (there is no dot for an index out of range), and it becomes
        the current slide. */
    method UpdateSlide(index: nat)
      modifies this`currentIndex, this`shift, this`active
      ensures currentIndex == index && shift == -100 * index
      ensures active == if index < total then {index} else {}
    {
      shift := -100 * index;
      active := {};
      if index < total {
        active := active + {index};
      }
      currentIndex := index;
    }

    /** One tick of the auto-slide interval. */
    method Advance()
      requires Valid()
      modifies this`currentIndex, this`shift, this`active
      ensures Valid() && currentIndex == Next(old(currentIndex), total)
    {
      var nextIndex := (currentIndex + 1) % total;
      UpdateSlide(nextIndex);
    }

    /** A click on dot `index`; the markup numbers the dots 0 to total - 1. */
    method ClickDot(index: nat)
      requires Valid() && index < total
      modifies this`currentIndex, this`shift, this`active
      ensures Valid() && currentIndex == index
    {
      UpdateSlide(index);
    }
  }

  /** initCarousel: nothing is set up without a track or without slides. */
  method InitCarousel(hasTrack: bool, slides: nat) returns (c: Carousel?)
    ensures c == null <==> !hasTrack || slides == 0
    ensures c != null ==> fresh(c) && c.Valid() && c.total == slides && c.currentIndex == 0
  {
    if !hasTrack || slides == 0 {
      return null;
    }
    c := new Carousel(slides);
  }

  /** The icon the theme buttons show. */
  datatype Icon = Sun | Moon

  /** updateIcons(theme): a sun in the dark theme, a moon otherwise. */
  function IconFor(theme: string): (i: Icon)
    ensures i == Sun <==> theme == "dark"
  {
    if theme == "dark" then Sun else Moon
  }

  /** toggleTheme's rule on the `data-theme` attribute, which may be absent
      or hold any stored string: dark becomes light, anything else dark. */
  function NextTheme(current: Option<string>): (next: string)
    ensures next == "light" || next == "dark"
  {
    if current == Some("dark") then "light" else "dark"
  }

  /** The next theme is light exactly when the current one is dark, and
      toggling twice from dark or from light returns to it; any other value
      becomes dark. */
  lemma NextThemeRules(current: Option<string>)
    ensures NextTheme(current) == "light" <==> current == Some("dark")
    ensures current == Some("dark") || current == Some("light") ==>
            Some(NextTheme(Some(NextTheme(current)))) == current
    ensures current != Some("dark") ==> NextTheme(current) == "dark"
  {
    assert "light" != "dark";
  }

  /** The page's theme state: the body's `data-theme` attribute, the stored
      `theme` entry and the icon the theme buttons show. */
  class ThemeState {
    var theme: Option<string>
    var stored: Option<string>
    var icon: Icon

    /** The icon matches the theme. */
    ghost predicate Consistent()
      reads this
    {
      theme.Some? && icon == IconFor(theme.value)
    }

    /** initTheme: a non-empty stored theme is applied to the page and its
        icons; an absent or empty one (falsy in JavaScript) leaves the page
        as it was. */
    constructor (saved: Option<string>, theme0: Option<string>, icon0: Icon)
      ensures stored == saved
      ensures saved.Some? && saved.value != "" ==> theme == saved && Consistent()
      ensures !(saved.Some? && saved.value != "") ==> theme == theme0 && icon == icon0
    {
      stored := saved;
      if saved.Some? && saved.value != "" {
        theme := saved;
        icon := IconFor(saved.value);
      } else {
        theme := theme0;
        icon := icon0;
      }
    }

    /** toggleTheme: the next theme is applied, stored and shown. */
    method Toggle()
      modifies this
      ensures theme == Some(NextTheme(old(theme))) && stored == theme && Consistent()
    {
      var next := NextTheme(theme);
      theme := Some(next);
      stored := Some(next);
      icon := IconFor(next);
    }
  }
}
