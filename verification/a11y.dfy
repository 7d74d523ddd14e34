/** Keyboard navigation of a carousel and the WCAG contrast check
    (src/utils/a11y.ts). */
module A11y {

  /** The `KeyboardEvent.key` values the handlers distinguish. `OtherKey`
      stands for every key name other than these four; `KeyOf` reads a name. */
  datatype Key = ArrowLeft | ArrowRight | Home | End | OtherKey(name: string)

  /** The key named by a `KeyboardEvent.key` string. */
  function KeyOf(name: string): (k: Key)
    ensures k.OtherKey? <==> name !in {"ArrowLeft", "ArrowRight", "Home", "End"}
    ensures k.OtherKey? ==> k.name == name
    ensures name == "ArrowLeft" <==> k == ArrowLeft
    ensures name == "ArrowRight" <==> k == ArrowRight
    ensures name == "Home" <==> k == Home
    ensures name == "End" <==> k == End
  {
    if name == "ArrowLeft" then ArrowLeft
    else if name == "ArrowRight" then ArrowRight
    else if name == "Home" then Home
    else if name == "End" then End
    else OtherKey(name)
  }

  /** What `handleCarouselKeyNavigation` does with an event: either nothing,
      or `preventDefault()` followed by `onIndexChange(index)`. */
  datatype KeyEffect = Ignored | Navigate(index: int)

  /** `handleCarouselKeyNavigation(event, currentIndex, totalItems, onIndexChange)`. */
  function CarouselKeyNavigation(key: Key, current: int, total: int): KeyEffect
  {
    match key
    case ArrowLeft => Navigate(if current > 0 then current - 1 else total - 1)
    case ArrowRight => Navigate(if current < total - 1 then current + 1 else 0)
    case Home => Navigate(0)
    case End => Navigate(total - 1)
    case OtherKey(_) => Ignored
  }

  /** Applies an arrow key to an index, keeping the index when the key is
      ignored. */
  function ArrowStep(key: Key, current: int, total: int): int
  {
    match CarouselKeyNavigation(key, current, total)
    case Navigate(i) => i
    case Ignored => current
  }

  /** Only the four navigation keys are handled (and have their default
      action prevented); Home always goes to the first item and End to the
      last. */
  lemma KeyNavigationHandles(key: Key, current: int, total: int)
    ensures CarouselKeyNavigation(key, current, total).Ignored? <==> key.OtherKey?
    ensures forall name :: CarouselKeyNavigation(KeyOf(name), current, total).Ignored? <==>
      name !in {"ArrowLeft", "ArrowRight", "Home", "End"}
    ensures key == Home ==> CarouselKeyNavigation(key, current, total) == Navigate(0)
    ensures key == End ==> CarouselKeyNavigation(key, current, total) == Navigate(total - 1)
  {
  }

  /** With at least one item and a valid current index, every produced index
      is valid, and the arrows are the successor and predecessor modulo the
      item count. */
  lemma KeyNavigationInRange(key: Key, current: int, total: int)
    requires 1 <= total && 0 <= current < total
    ensures var e := CarouselKeyNavigation(key, current, total);
      e.Navigate? ==> 0 <= e.index < total
    ensures key == ArrowRight ==> CarouselKeyNavigation(key, current, total) == Navigate((current + 1) % total)
    ensures key == ArrowLeft ==> CarouselKeyNavigation(key, current, total) == Navigate((current - 1 + total) % total)
  {
    if current < total - 1 { ModSmall(current + 1, total); } else { ModWrap(current + 1, total); }
    if current > 0 { ModWrap(current - 1 + total, total); } else { ModSmall(current - 1 + total, total); }
  }

  lemma ModSmall(x: int, n: int)
    requires 0 <= x < n
    ensures x % n == x
  {
  }

  lemma ModWrap(y: int, n: int)
    requires 0 < n <= y < 2 * n
    ensures y % n == y - n
  {
  }

  /** With no items, End and ArrowLeft at index 0 both produce -1. */
  lemma KeyNavigationEmpty()
    ensures CarouselKeyNavigation(End, 0, 0) == Navigate(-1)
    ensures CarouselKeyNavigation(ArrowLeft, 0, 0) == Navigate(-1)
  {
  }

  /** ArrowRight undoes ArrowLeft and ArrowLeft undoes ArrowRight. */
  lemma ArrowsInverse(current: int, total: int)
    requires 1 <= total && 0 <= current < total
    ensures ArrowStep(ArrowRight, ArrowStep(ArrowLeft, current, total), total) == current
    ensures ArrowStep(ArrowLeft, ArrowStep(ArrowRight, current, total), total) == current
  {
  }

  // ---------------------------------------------------------------------
  // Contrast
  // ---------------------------------------------------------------------

  datatype Level = AA | AAA
  datatype TextSize = Normal | Large

  /** The final step of `calculateContrastRatio`: the lighter luminance plus
      0.05 over the darker plus 0.05. Luminances are non-negative. */
  function ContrastRatio(l1: real, l2: real): (r: real)
    requires l1 >= 0.0 && l2 >= 0.0
  {
    var lighter := if l1 >= l2 then l1 else l2;
    var darker := if l1 >= l2 then l2 else l1;
    (lighter + 0.05) / (darker + 0.05)
  }

  /** The ratio does not depend on which colour is the foreground, is at
      least 1, equals 1 exactly for equal luminances, and is at most 21 for
      luminances in [0, 1]. */
  lemma ContrastRatioFacts(l1: real, l2: real)
    requires l1 >= 0.0 && l2 >= 0.0
    ensures ContrastRatio(l1, l2) == ContrastRatio(l2, l1)
    ensures ContrastRatio(l1, l2) >= 1.0
    ensures ContrastRatio(l1, l2) == 1.0 <==> l1 == l2
    ensures l1 <= 1.0 && l2 <= 1.0 ==> ContrastRatio(l1, l2) <= 21.0
  {
    var lighter := if l1 >= l2 then l1 else l2;
    var darker := if l1 >= l2 then l2 else l1;
    QuotientBounds(lighter + 0.05, darker + 0.05, 1.0);
    QuotientBounds(lighter + 0.05, darker + 0.05, 21.0);
  }

  /** Compares a quotient with a bound by comparing the numerator with the
      bound times the positive denominator. */
  lemma QuotientBounds(num: real, den: real, k: real)
    requires den > 0.0
    ensures num / den >= k <==> num >= k * den
    ensures num / den == k <==> num == k * den
  {
    var q := num / den;
    assert q * den == num;
    if q >= k {
      assert q * den >= k * den;
    } else {
      assert q * den < k * den;
    }
  }

  /** `meetsContrastRequirements` given the ratio of the two colours, with the
      source's defaults `level = 'AA'` and `size = 'normal'`. */
  function MeetsContrastRequirements(ratio: real, level: Level := AA, size: TextSize := Normal): bool
  {
    if level == AAA then
      (if size == Large then ratio >= 4.5 else ratio >= 7.0)
    else
      (if size == Large then ratio >= 3.0 else ratio >= 4.5)
  }

  /** The minimum ratios of WCAG 2.1 success criteria 1.4.3 (contrast,
      minimum: level AA) and 1.4.6 (contrast, enhanced: level AAA). */
  function WcagMinimum(level: Level, size: TextSize): real
  {
    match (level, size)
    case (AA, Normal) => 4.5
    case (AA, Large) => 3.0
    case (AAA, Normal) => 7.0
    case (AAA, Large) => 4.5
  }

  /** The check passes exactly when the ratio reaches the WCAG minimum; as a
      consequence AAA implies AA at the same size, and passing for normal
      text implies passing for large text at the same level. */
  lemma ContrastThresholds(ratio: real, level: Level, size: TextSize)
    ensures MeetsContrastRequirements(ratio, level, size) <==> ratio >= WcagMinimum(level, size)
    ensures MeetsContrastRequirements(ratio, AAA, size) ==> MeetsContrastRequirements(ratio, AA, size)
    ensures MeetsContrastRequirements(ratio, level, Normal) ==> MeetsContrastRequirements(ratio, level, Large)
    ensures MeetsContrastRequirements(ratio) <==> ratio >= 4.5
  {
  }
}
