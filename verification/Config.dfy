/** Resource configurations and the three ways of comparing them: whether one matches a request, is more specific than
    another, or is the better match of two. */
module Config {

  type uint8 = n: nat | n < 0x100

  type uint16 = n: nat | n < 0x1_0000

  /** The fields of a configuration. Each line is one of its 32-bit words. */
  datatype Config = Config(
    mcc: uint16, mnc: uint16,
    language0: uint8, language1: uint8, country0: uint8, country1: uint8,
    orientation: uint8, touchscreen: uint8, density: uint16,
    keyboard: uint8, navigation: uint8, inputFlags: bv8, inputPad0: uint8,
    screenWidth: uint16, screenHeight: uint16,
    sdkVersion: uint16, minorVersion: uint16,
    screenLayout: bv8, uiMode: bv8, screenConfigPad1: uint8, screenConfigPad2: uint8)
  {
    // Whether the word that overlays some of the fields is other than zero.

    predicate Imsi() { mcc != 0 || mnc != 0 }

    predicate Locale() { language0 != 0 || language1 != 0 || country0 != 0 || country1 != 0 }

    predicate ScreenType() { orientation != 0 || touchscreen != 0 || density != 0 }

    predicate Input() { keyboard != 0 || navigation != 0 || inputFlags != 0 || inputPad0 != 0 }

    predicate ScreenSize() { screenWidth != 0 || screenHeight != 0 }

    predicate Version() { sdkVersion != 0 || minorVersion != 0 }

    predicate ScreenConfig() { screenLayout != 0 || uiMode != 0 || screenConfigPad1 != 0 || screenConfigPad2 != 0 }
  }

  const MASK_KEYSHIDDEN: bv8 := 0x03
  const MASK_NAVHIDDEN: bv8 := 0x0c
  const MASK_SCREENSIZE: bv8 := 0x0f
  const MASK_SCREENLONG: bv8 := 0x30
  const MASK_UI_MODE_TYPE: bv8 := 0x0f
  const MASK_UI_MODE_NIGHT: bv8 := 0x30

  const SCREENSIZE_NORMAL: int := 2
  const KEYSHIDDEN_NO: int := 1
  const KEYSHIDDEN_SOFT: int := 3

  /** The part of a byte under a mask. */
  function Part(b: bv8, mask: bv8): uint8 { (b & mask) as int }

  /** The test by which the code tells that the parts of two bytes differ. */
  predicate Differ(b: bv8, c: bv8, mask: bv8) { (b ^ c) & mask != 0 }

  lemma DifferIff(b: bv8, c: bv8, mask: bv8)
    ensures Differ(b, c, mask) <==> Part(b, mask) != Part(c, mask)
  {
    DifferInBits(b, c, mask);
  }

  lemma DifferInBits(b: bv8, c: bv8, mask: bv8)
    ensures (b ^ c) & mask != 0 <==> b & mask != c & mask
  {
  }

  // ----- Verdicts -----

  /** What a test says of a configuration beside another; a tie is the fall through to the next test. */
  datatype Verdict = Better | Worse | Tie

  function Then(v: Verdict, w: Verdict): Verdict { if v != Tie then v else w }

  function Flip(v: Verdict): Verdict {
    match v
    case Better => Worse
    case Worse => Better
    case Tie => Tie
  }

  function Win(b: bool): Verdict { if b then Better else Worse }

  // ----- isMoreSpecificThan -----

  function Specified(x: nat, o: nat): Verdict {
    if x != o then
      if x == 0 then Worse else if o == 0 then Better else Tie
    else Tie
  }

  function SpecifiedPart(x: bv8, o: bv8, mask: bv8): Verdict {
    if Differ(x, o, mask) then
      if x & mask == 0 then Worse else if o & mask == 0 then Better else Tie
    else Tie
  }

  function ImsiSpecified(c: Config, o: Config): Verdict {
    if c.Imsi() || o.Imsi() then Then(Specified(c.mcc, o.mcc), Specified(c.mnc, o.mnc)) else Tie
  }

  function LocaleSpecified(c: Config, o: Config): Verdict {
    if c.Locale() || o.Locale() then
      Then(Specified(c.language0, o.language0), Specified(c.country0, o.country0))
    else Tie
  }

  function LayoutSpecified(c: Config, o: Config): Verdict {
    if c.screenLayout != 0 || o.screenLayout != 0 then
      Then(SpecifiedPart(c.screenLayout, o.screenLayout, MASK_SCREENSIZE),
           SpecifiedPart(c.screenLayout, o.screenLayout, MASK_SCREENLONG))
    else Tie
  }

  function ModeSpecified(c: Config, o: Config): Verdict {
    if c.uiMode != 0 || o.uiMode != 0 then
      Then(SpecifiedPart(c.uiMode, o.uiMode, MASK_UI_MODE_TYPE), SpecifiedPart(c.uiMode, o.uiMode, MASK_UI_MODE_NIGHT))
    else Tie
  }

  function InputSpecified(c: Config, o: Config): Verdict {
    if c.Input() || o.Input() then
      Then(SpecifiedPart(c.inputFlags, o.inputFlags, MASK_KEYSHIDDEN),
      Then(SpecifiedPart(c.inputFlags, o.inputFlags, MASK_NAVHIDDEN),
      Then(Specified(c.keyboard, o.keyboard), Specified(c.navigation, o.navigation))))
    else Tie
  }

  function SizeSpecified(c: Config, o: Config): Verdict {
    if c.ScreenSize() || o.ScreenSize() then
      Then(Specified(c.screenWidth, o.screenWidth), Specified(c.screenHeight, o.screenHeight))
    else Tie
  }

  function VersionSpecified(c: Config, o: Config): Verdict {
    if c.Version() || o.Version() then
      Then(Specified(c.sdkVersion, o.sdkVersion), Specified(c.minorVersion, o.minorVersion))
    else Tie
  }

  /** All tests in their order; density is never more specific. */
  function SpecificVerdict(c: Config, o: Config): Verdict {
    Then(ImsiSpecified(c, o),
    Then(LocaleSpecified(c, o),
    Then(LayoutSpecified(c, o),
    Then(Specified(c.orientation, o.orientation),
    Then(ModeSpecified(c, o),
    Then(Specified(c.touchscreen, o.touchscreen),
    Then(InputSpecified(c, o),
    Then(SizeSpecified(c, o),
         VersionSpecified(c, o)))))))))
  }

  predicate IsMoreSpecificThan(c: Config, o: Config) { SpecificVerdict(c, o) == Better }

  // ----- match -----

  /** Whether a value that is set is other than the one requested, where one is requested. */
  predicate Odd(x: nat, setting: nat) { setting != 0 && x != 0 && x != setting }

  predicate MatchImsi(c: Config, settings: Config) {
    c.Imsi() ==>
      && !(Odd(c.mcc, settings.mcc) || (settings.mcc == 0 && c.mcc != 0))
      && !(Odd(c.mnc, settings.mnc) || (settings.mnc == 0 && c.mnc != 0))
  }

  predicate MatchLocale(c: Config, settings: Config) {
    c.Locale() ==>
      && !(settings.language0 != 0 && c.language0 != 0
           && (c.language0 != settings.language0 || c.language1 != settings.language1))
      && !(settings.country0 != 0 && c.country0 != 0
           && (c.country0 != settings.country0 || c.country1 != settings.country1))
  }

  predicate MatchScreenConfig(c: Config, settings: Config) {
    c.ScreenConfig() ==>
      var screenSize, setScreenSize := Part(c.screenLayout, MASK_SCREENSIZE),
          Part(settings.screenLayout, MASK_SCREENSIZE);
      && !((setScreenSize != 0 && screenSize != 0 && screenSize > setScreenSize)
          || (setScreenSize == 0 && screenSize != 0))
      && !Odd(Part(c.screenLayout, MASK_SCREENLONG), Part(settings.screenLayout, MASK_SCREENLONG))
      && !Odd(Part(c.uiMode, MASK_UI_MODE_TYPE), Part(settings.uiMode, MASK_UI_MODE_TYPE))
      && !Odd(Part(c.uiMode, MASK_UI_MODE_NIGHT), Part(settings.uiMode, MASK_UI_MODE_NIGHT))
  }

  predicate MatchScreenType(c: Config, settings: Config) {
    c.ScreenType() ==> !Odd(c.orientation, settings.orientation) && !Odd(c.touchscreen, settings.touchscreen)
  }

  predicate MatchInput(c: Config, settings: Config) {
    c.Input() ==>
      var keysHidden, setKeysHidden := Part(c.inputFlags, MASK_KEYSHIDDEN), Part(settings.inputFlags, MASK_KEYSHIDDEN);
      && !(Odd(keysHidden, setKeysHidden) && (keysHidden != KEYSHIDDEN_NO || setKeysHidden != KEYSHIDDEN_SOFT))
      && !Odd(Part(c.inputFlags, MASK_NAVHIDDEN), Part(settings.inputFlags, MASK_NAVHIDDEN))
      && !Odd(c.keyboard, settings.keyboard)
      && !Odd(c.navigation, settings.navigation)
  }

  predicate MatchScreenSize(c: Config, settings: Config) {
    c.ScreenSize() ==> !Odd(c.screenWidth, settings.screenWidth) && !Odd(c.screenHeight, settings.screenHeight)
  }

  predicate MatchVersion(c: Config, settings: Config) {
    c.Version() ==>
      && !(settings.sdkVersion != 0 && c.sdkVersion != 0 && c.sdkVersion > settings.sdkVersion)
      && !Odd(c.minorVersion, settings.minorVersion)
  }

  predicate Match(c: Config, settings: Config) {
    && MatchImsi(c, settings) && MatchLocale(c, settings) && MatchScreenConfig(c, settings)
    && MatchScreenType(c, settings)
    && MatchInput(c, settings) && MatchScreenSize(c, settings) && MatchVersion(c, settings)
  }

  // ----- isBetterThan -----

  /** An attribute that the request cares about: if the two differ, the one that is set wins. */
  function Wanted(x: nat, o: nat, requested: nat): Verdict {
    if x != o && requested != 0 then Win(x != 0) else Tie
  }

  function WantedPart(x: bv8, o: bv8, requested: bv8, mask: bv8): Verdict {
    if Differ(x, o, mask) && requested & mask != 0 then Win(x & mask != 0) else Tie
  }

  function ImsiVerdict(c: Config, o: Config, requested: Config): Verdict {
    if c.Imsi() || o.Imsi() then Then(Wanted(c.mcc, o.mcc, requested.mcc), Wanted(c.mnc, o.mnc, requested.mnc)) else Tie
  }

  function LocaleVerdict(c: Config, o: Config, requested: Config): Verdict {
    if c.Locale() || o.Locale() then
      Then(Wanted(c.language0, o.language0, requested.language0), Wanted(c.country0, o.country0, requested.country0))
    else Tie
  }

  /** An undefined size counts as normal if at least that is requested. */
  function FixedSize(size: nat, requested: nat): nat {
    if requested >= SCREENSIZE_NORMAL && size == 0 then SCREENSIZE_NORMAL else size
  }

  function SizeClassVerdict(c: Config, o: Config, requested: Config): Verdict {
    var wanted := Part(requested.screenLayout, MASK_SCREENSIZE);
    if Differ(c.screenLayout, o.screenLayout, MASK_SCREENSIZE) && wanted != 0 then
      var mySL, oSL := Part(c.screenLayout, MASK_SCREENSIZE), Part(o.screenLayout, MASK_SCREENSIZE);
      var fixedMySL, fixedOSL := FixedSize(mySL, wanted), FixedSize(oSL, wanted);
      if fixedMySL == fixedOSL then (if mySL == 0 then Worse else Better)
      else Win(fixedMySL >= fixedOSL)
    else Tie
  }

  function LayoutVerdict(c: Config, o: Config, requested: Config): Verdict {
    if c.screenLayout != 0 || o.screenLayout != 0 then
      Then(SizeClassVerdict(c, o, requested),
           WantedPart(c.screenLayout, o.screenLayout, requested.screenLayout, MASK_SCREENLONG))
    else Tie
  }

  function ModeVerdict(c: Config, o: Config, requested: Config): Verdict {
    if c.uiMode != 0 || o.uiMode != 0 then
      Then(WantedPart(c.uiMode, o.uiMode, requested.uiMode, MASK_UI_MODE_TYPE),
           WantedPart(c.uiMode, o.uiMode, requested.uiMode, MASK_UI_MODE_NIGHT))
    else Tie
  }

  /** A product of two ints of 32 bits, wrapped round. */
  function Times32(x: int, y: int): int { (x * y + 0x8000_0000) % 0x1_0000_0000 - 0x8000_0000 }

  /** The density that the rule counts with. */
  function Effective(density: uint16): (d: nat)
    ensures d > 0
  {
    if density != 0 then density else 160
  }

  /** Scaling down is better than scaling up: of two densities, whether the first wins. */
  predicate DensityWins(mine: nat, other: nat, reqValue: nat) {
    var bImBigger := !(other > mine);
    var h, l := if bImBigger then mine else other, if bImBigger then other else mine;
    if reqValue >= h then bImBigger
    else if l >= reqValue then !bImBigger
    else if Times32(2 * l - reqValue, h) > Times32(reqValue, reqValue) then !bImBigger
    else bImBigger
  }

  function DensityVerdict(c: Config, o: Config, requested: Config): Verdict {
    if c.density != o.density then
      Win(DensityWins(Effective(c.density), Effective(o.density), Effective(requested.density)))
    else Tie
  }

  function ScreenTypeVerdict(c: Config, o: Config, requested: Config): Verdict {
    if c.ScreenType() || o.ScreenType() then
      Then(DensityVerdict(c, o, requested), Wanted(c.touchscreen, o.touchscreen, requested.touchscreen))
    else Tie
  }

  function KeysHiddenVerdict(keysHidden: nat, oKeysHidden: nat, reqKeysHidden: nat): Verdict {
    if keysHidden != oKeysHidden && reqKeysHidden != 0 then
      if keysHidden == 0 then Worse
      else if oKeysHidden == 0 then Better
      else if reqKeysHidden == keysHidden then Better
      else if reqKeysHidden == oKeysHidden then Worse
      else Tie
    else Tie
  }

  function NavHiddenVerdict(navHidden: nat, oNavHidden: nat, reqNavHidden: nat): Verdict {
    if navHidden != oNavHidden && reqNavHidden != 0 then
      if navHidden == 0 then Worse
      else if oNavHidden == 0 then Better
      else Tie
    else Tie
  }

  function InputVerdict(c: Config, o: Config, requested: Config): Verdict {
    if c.Input() || o.Input() then
      Then(KeysHiddenVerdict(Part(c.inputFlags, MASK_KEYSHIDDEN), Part(o.inputFlags, MASK_KEYSHIDDEN),
                             Part(requested.inputFlags, MASK_KEYSHIDDEN)),
      Then(NavHiddenVerdict(Part(c.inputFlags, MASK_NAVHIDDEN), Part(o.inputFlags, MASK_NAVHIDDEN),
                            Part(requested.inputFlags, MASK_NAVHIDDEN)),
      Then(Wanted(c.keyboard, o.keyboard, requested.keyboard),
           Wanted(c.navigation, o.navigation, requested.navigation))))
    else Tie
  }

  function ScreenSizeVerdict(c: Config, o: Config, requested: Config): Verdict {
    if c.ScreenSize() || o.ScreenSize() then
      Then(Wanted(c.screenWidth, o.screenWidth, requested.screenWidth),
           Wanted(c.screenHeight, o.screenHeight, requested.screenHeight))
    else Tie
  }

  function SdkVerdict(x: nat, o: nat, requested: nat): Verdict {
    if x != o && requested != 0 then Win(x > o) else Tie
  }

  function VersionVerdict(c: Config, o: Config, requested: Config): Verdict {
    if c.Version() || o.Version() then
      Then(SdkVerdict(c.sdkVersion, o.sdkVersion, requested.sdkVersion),
           Wanted(c.minorVersion, o.minorVersion, requested.minorVersion))
    else Tie
  }

  /** The tests that come before the density, and those that follow it. */
  function EarlyVerdict(c: Config, o: Config, requested: Config): Verdict {
    Then(ImsiVerdict(c, o, requested),
    Then(LocaleVerdict(c, o, requested),
    Then(LayoutVerdict(c, o, requested),
    Then(Wanted(c.orientation, o.orientation, requested.orientation),
         ModeVerdict(c, o, requested)))))
  }

  function LateVerdict(c: Config, o: Config, requested: Config): Verdict {
    Then(InputVerdict(c, o, requested),
    Then(ScreenSizeVerdict(c, o, requested),
         VersionVerdict(c, o, requested)))
  }

  function BetterVerdict(c: Config, o: Config, requested: Config): Verdict {
    Then(EarlyVerdict(c, o, requested), Then(ScreenTypeVerdict(c, o, requested), LateVerdict(c, o, requested)))
  }

  datatype Request = NoRequest | Requested(config: Config)

  predicate IsBetterThan(c: Config, o: Config, requested: Request) {
    match requested
    case NoRequest => IsMoreSpecificThan(c, o)
    case Requested(r) => BetterVerdict(c, o, r) == Better
  }
}
