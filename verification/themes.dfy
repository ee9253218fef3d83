/** `JellyTunesColors.kt`: the four colour schemes and cycling between them. */
module Themes {

  /** An ARGB colour, `Color(0xAARRGGBB)`. */
  type Argb = c: int | 0 <= c < 0x1_0000_0000

  datatype ThemeType = AMBER | FOREST | SUNSET | BURGUNDY

  datatype JellyTunesColors = JellyTunesColors(
    name: string,
    background: Argb,
    surface: Argb,
    surfaceVariant: Argb,
    primary: Argb,
    primaryLight: Argb,
    primaryDark: Argb,
    accent: Argb,
    gradientOverlayEnd: Argb,
    coverGradientStart: Argb,
    coverGradientMid: Argb,
    coverGradientEnd: Argb,
    progressTrack: Argb,
    progressIndicator: Argb,
    progressGlow: Argb,
    textPrimary: Argb,
    textSecondary: Argb,
    textMuted: Argb)

  const Amber: JellyTunesColors := JellyTunesColors(
    "Amber", 0xFF0C0A08, 0xFF1A1714, 0xFF252220, 0xFFD4A574, 0xFFE8C49A, 0xFFB8956A, 0xFFE07B67,
    0xFF0C0A08, 0xFF2D2520, 0xFF3D322A, 0xFF4A3C32, 0xFF2A2622, 0xFFD4A574, 0x40D4A574,
    0xFFFAF8F5, 0xFFB8B0A8, 0xFF7A7570)

  const Forest: JellyTunesColors := JellyTunesColors(
    "Forest", 0xFF080C08, 0xFF141A14, 0xFF202520, 0xFF6BCB77, 0xFF8FD99A, 0xFF4CAF50, 0xFF81C784,
    0xFF080C08, 0xFF1A2E1A, 0xFF243D24, 0xFF2E4A2E, 0xFF222A22, 0xFF6BCB77, 0x406BCB77,
    0xFFF5FAF5, 0xFFA8B8A8, 0xFF707A70)

  const Sunset: JellyTunesColors := JellyTunesColors(
    "Sunset", 0xFF0C0908, 0xFF1A1514, 0xFF252020, 0xFFFF8A65, 0xFFFFAB91, 0xFFE57350, 0xFFFFB74D,
    0xFF0C0908, 0xFF2D1F1A, 0xFF3D2A22, 0xFF4A332A, 0xFF2A2220, 0xFFFF8A65, 0x40FF8A65,
    0xFFFAF7F5, 0xFFB8ADA8, 0xFF7A7270)

  const Burgundy: JellyTunesColors := JellyTunesColors(
    "Burgundy", 0xFF0A0808, 0xFF1A1414, 0xFF251E1E, 0xFFCD5C5C, 0xFFE08080, 0xFFB84A4A, 0xFFDC7C7C,
    0xFF0A0808, 0xFF2A1A1A, 0xFF3A2424, 0xFF4A2E2E, 0xFF2A2020, 0xFFCD5C5C, 0x40CD5C5C,
    0xFFFAF5F5, 0xFFB8A8A8, 0xFF7A7070)

  /** `ThemeType.entries`, in declaration order. */
  const ENTRIES: seq<ThemeType> := [AMBER, FOREST, SUNSET, BURGUNDY]

  /** `entries.indexOf(t)`. */
  function IndexOf(t: ThemeType): (i: nat)
    ensures i < |ENTRIES| && ENTRIES[i] == t
  {
    match t
    case AMBER => 0
    case FOREST => 1
    case SUNSET => 2
    case BURGUNDY => 3
  }

  function GetTheme(t: ThemeType): JellyTunesColors {
    match t
    case AMBER => Amber
    case FOREST => Forest
    case SUNSET => Sunset
    case BURGUNDY => Burgundy
  }

  /** `values[(currentIndex + 1) % values.size]`: AMBER, FOREST, SUNSET, BURGUNDY, then AMBER again. */
  function GetNextTheme(t: ThemeType): (r: ThemeType)
    ensures t == AMBER ==> r == FOREST
    ensures t == FOREST ==> r == SUNSET
    ensures t == SUNSET ==> r == BURGUNDY
    ensures t == BURGUNDY ==> r == AMBER
  {
    ENTRIES[(IndexOf(t) + 1) % |ENTRIES|]
  }

  /** `values[(currentIndex - 1 + values.size) % values.size]`: the cycle run backwards,
      AMBER back to BURGUNDY. */
  function GetPreviousTheme(t: ThemeType): (r: ThemeType)
    ensures t == AMBER ==> r == BURGUNDY
    ensures t == FOREST ==> r == AMBER
    ensures t == SUNSET ==> r == FOREST
    ensures t == BURGUNDY ==> r == SUNSET
  {
    ENTRIES[(IndexOf(t) - 1 + |ENTRIES|) % |ENTRIES|]
  }

  /** Previous undoes next and next undoes previous. */
  lemma NextPreviousInverse(t: ThemeType)
    ensures GetPreviousTheme(GetNextTheme(t)) == t
    ensures GetNextTheme(GetPreviousTheme(t)) == t
  {
  }

  /** Four steps of `getNextTheme` come back to the start, and no fewer do. */
  lemma NextHasPeriodFour(t: ThemeType)
    ensures GetNextTheme(GetNextTheme(GetNextTheme(GetNextTheme(t)))) == t
    ensures GetNextTheme(t) != t
    ensures GetNextTheme(GetNextTheme(t)) != t
    ensures GetNextTheme(GetNextTheme(GetNextTheme(t))) != t
  {
  }

  /** The enum constant's name as written. */
  function EnumName(t: ThemeType): string {
    match t
    case AMBER => "AMBER"
    case FOREST => "FOREST"
    case SUNSET => "SUNSET"
    case BURGUNDY => "BURGUNDY"
  }

  /** First letter kept, the rest lower-cased (ASCII). */
  function Capitalised(s: string): string {
    if |s| == 0 then s
    else [s[0]] + seq(|s| - 1, i requires 0 <= i < |s| - 1 =>
                         if 'A' <= s[i + 1] <= 'Z' then (s[i + 1] as int + 32) as char else s[i + 1])
  }

  /** Cross-theme invariants: each scheme's name is its capitalised enum name, the progress
      indicator is the primary colour, its glow is the primary at alpha 0x40, and the gradient
      overlay fades into the background. */
  lemma ThemeInvariants(t: ThemeType)
    ensures GetTheme(t).name == Capitalised(EnumName(t))
    ensures GetTheme(t).progressIndicator == GetTheme(t).primary
    ensures GetTheme(t).progressGlow == 0x4000_0000 + GetTheme(t).primary % 0x100_0000
    ensures GetTheme(t).gradientOverlayEnd == GetTheme(t).background
  {
  }

  /** Different theme types have different schemes (the names differ). */
  lemma ThemesDistinct(t: ThemeType, u: ThemeType)
    requires t != u
    ensures GetTheme(t).name != GetTheme(u).name
  {
  }

  /** `LocalJellyTunesColors` defaults to the Amber scheme. */
  function DefaultColors(): (c: JellyTunesColors)
    ensures c == GetTheme(AMBER) && c.name == "Amber"
  {
    Amber
  }
}
