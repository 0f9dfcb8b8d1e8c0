/** That the better match of two is decided by vectors of ranks, once the two match the request. */
module BetterOrder {
  import opened Config
  import opened ConfigOrder
  import opened DensityOrder
  import opened Lex

  // ----- The ranks -----

  /** An attribute counts if it is requested and set. */
  function SetRank(x: nat, requested: nat): real { Bit(requested != 0 && x != 0) }

  function PartRank(x: bv8, requested: bv8, mask: bv8): real { Bit(requested & mask != 0 && x & mask != 0) }

  function ImsiRanks(c: Config, r: Config): (ranks: seq<real>)
    ensures |ranks| == 2
  {
    [SetRank(c.mcc, r.mcc), SetRank(c.mnc, r.mnc)]
  }

  function LocaleRanks(c: Config, r: Config): (ranks: seq<real>)
    ensures |ranks| == 2
  {
    [SetRank(c.language0, r.language0), SetRank(c.country0, r.country0)]
  }

  /** The greater size class, and of an undefined one and of the one that it counts as, the latter. */
  function SizeClassRank(size: nat, requested: nat): real {
    if requested == 0 then 0.0 else (2 * FixedSize(size, requested) + (if size != 0 then 1 else 0)) as real
  }

  function LayoutRanks(c: Config, r: Config): (ranks: seq<real>)
    ensures |ranks| == 2
  {
    [SizeClassRank(Part(c.screenLayout, MASK_SCREENSIZE), Part(r.screenLayout, MASK_SCREENSIZE)),
     PartRank(c.screenLayout, r.screenLayout, MASK_SCREENLONG)]
  }

  function ModeRanks(c: Config, r: Config): (ranks: seq<real>)
    ensures |ranks| == 2
  {
    [PartRank(c.uiMode, r.uiMode, MASK_UI_MODE_TYPE), PartRank(c.uiMode, r.uiMode, MASK_UI_MODE_NIGHT)]
  }

  /** What the density is worth; of two worth as much, the one above what is requested. */
  function ScreenTypeRanks(c: Config, r: Config): (ranks: seq<real>)
    ensures |ranks| == 3
  {
    var d, wanted := Effective(c.density), Effective(r.density);
    [Worth(d, wanted), Bit(d > wanted), SetRank(c.touchscreen, r.touchscreen)]
  }

  function KeysHiddenRank(keys: nat, requested: nat): real {
    if requested == 0 || keys == 0 then 0.0 else if keys == requested then 2.0 else 1.0
  }

  function InputRanks(c: Config, r: Config): (ranks: seq<real>)
    ensures |ranks| == 4
  {
    [KeysHiddenRank(Part(c.inputFlags, MASK_KEYSHIDDEN), Part(r.inputFlags, MASK_KEYSHIDDEN)),
     PartRank(c.inputFlags, r.inputFlags, MASK_NAVHIDDEN),
     SetRank(c.keyboard, r.keyboard), SetRank(c.navigation, r.navigation)]
  }

  function ScreenSizeRanks(c: Config, r: Config): (ranks: seq<real>)
    ensures |ranks| == 2
  {
    [SetRank(c.screenWidth, r.screenWidth), SetRank(c.screenHeight, r.screenHeight)]
  }

  function SdkRank(sdk: nat, requested: nat): real { if requested != 0 then sdk as real else 0.0 }

  function VersionRanks(c: Config, r: Config): (ranks: seq<real>)
    ensures |ranks| == 2
  {
    [SdkRank(c.sdkVersion, r.sdkVersion), SetRank(c.minorVersion, r.minorVersion)]
  }

  function EarlyRanks(c: Config, r: Config): (ranks: seq<real>)
    ensures |ranks| == 9
  {
    ImsiRanks(c, r) + (LocaleRanks(c, r)
        + (LayoutRanks(c, r) + ([SetRank(c.orientation, r.orientation)] + ModeRanks(c, r))))
  }

  function LateRanks(c: Config, r: Config): (ranks: seq<real>)
    ensures |ranks| == 8
  {
    InputRanks(c, r) + (ScreenSizeRanks(c, r) + VersionRanks(c, r))
  }

  /** All ranks of a configuration for a request, the most important first. */
  function Ranks(c: Config, r: Config): (ranks: seq<real>)
    ensures |ranks| == 20
  {
    EarlyRanks(c, r) + (ScreenTypeRanks(c, r) + LateRanks(c, r))
  }

  // ----- What the conditions are -----

  /** Whether two densities are written differently and mean the same. */
  predicate Clash(c: Config, o: Config) { c.density != o.density && Effective(c.density) == Effective(o.density) }

  /** Whether the rule compares their densities right; it does for any two if the request's is safe. */
  predicate SoundFor(c: Config, o: Config, r: Config) {
    Sound(Effective(c.density), Effective(o.density), Effective(r.density))
  }

  // ----- Each test compares ranks -----

  lemma WantedIsByRank(x: nat, o: nat, requested: nat)
    requires !Odd(x, requested) && !Odd(o, requested)
    ensures Wanted(x, o, requested) == By(SetRank(x, requested), SetRank(o, requested))
  {
  }

  lemma WantedPartIsByRank(x: bv8, o: bv8, requested: bv8, mask: bv8)
    requires !Odd(Part(x, mask), Part(requested, mask)) && !Odd(Part(o, mask), Part(requested, mask))
    ensures WantedPart(x, o, requested, mask) == By(PartRank(x, requested, mask), PartRank(o, requested, mask))
  {
    DifferInBits(x, o, mask);
    PartIsZero(x, mask);
    PartIsZero(o, mask);
    PartIsZero(requested, mask);
    EqualParts(x, requested, mask);
    EqualParts(o, requested, mask);
  }

  lemma PartIsZero(x: bv8, mask: bv8)
    ensures Part(x, mask) == 0 <==> x & mask == 0
  {
  }

  lemma EqualParts(x: bv8, o: bv8, mask: bv8)
    ensures Part(x, mask) == Part(o, mask) <==> x & mask == o & mask
  {
  }

  lemma SizeClassIsByRank(c: Config, o: Config, r: Config)
    ensures SizeClassVerdict(c, o, r)
         == By(SizeClassRank(Part(c.screenLayout, MASK_SCREENSIZE), Part(r.screenLayout, MASK_SCREENSIZE)),
               SizeClassRank(Part(o.screenLayout, MASK_SCREENSIZE), Part(r.screenLayout, MASK_SCREENSIZE)))
  {
    hide Part;
    DifferIff(c.screenLayout, o.screenLayout, MASK_SCREENSIZE);
  }

  lemma KeysHiddenIsByRank(x: nat, o: nat, requested: nat)
    requires !(Odd(x, requested) && (x != KEYSHIDDEN_NO || requested != KEYSHIDDEN_SOFT))
    requires !(Odd(o, requested) && (o != KEYSHIDDEN_NO || requested != KEYSHIDDEN_SOFT))
    ensures KeysHiddenVerdict(x, o, requested) == By(KeysHiddenRank(x, requested), KeysHiddenRank(o, requested))
  {
  }

  lemma NavHiddenIsByRank(c: Config, o: Config, r: Config)
    requires !Odd(Part(c.inputFlags, MASK_NAVHIDDEN), Part(r.inputFlags, MASK_NAVHIDDEN))
    requires !Odd(Part(o.inputFlags, MASK_NAVHIDDEN), Part(r.inputFlags, MASK_NAVHIDDEN))
    ensures NavHiddenVerdict(Part(c.inputFlags, MASK_NAVHIDDEN), Part(o.inputFlags, MASK_NAVHIDDEN),
                             Part(r.inputFlags, MASK_NAVHIDDEN))
         == By(PartRank(c.inputFlags, r.inputFlags, MASK_NAVHIDDEN),
             PartRank(o.inputFlags, r.inputFlags, MASK_NAVHIDDEN))
  {
    hide Part;
    PartIsZero(c.inputFlags, MASK_NAVHIDDEN);
    PartIsZero(o.inputFlags, MASK_NAVHIDDEN);
    PartIsZero(r.inputFlags, MASK_NAVHIDDEN);
  }

  /** What the density ranks say of two configurations. */
  function DensityCompare(c: Config, o: Config, r: Config): Verdict {
    var m, n, w := Effective(c.density), Effective(o.density), Effective(r.density);
    Then(By(Worth(m, w), Worth(n, w)), By(Bit(m > w), Bit(n > w)))
  }

  /** The density test says what the ranks say, or where its products compare wrong, the opposite. */
  lemma DensityIsByRankIff(c: Config, o: Config, r: Config)
    requires !Clash(c, o)
    ensures SoundFor(c, o, r) ==> DensityVerdict(c, o, r) == DensityCompare(c, o, r)
    ensures !SoundFor(c, o, r) ==> DensityVerdict(c, o, r) == Flip(DensityCompare(c, o, r)) != Tie
  {
    hide DensityWins, Worth, Sound;
    var m, n, w := Effective(c.density), Effective(o.density), Effective(r.density);
    if m != n {
      RuleIsByWorthIff(m, n, w);
      if m < n {
        EqualWorthIsAcross(m, n, w);
      } else {
        EqualWorthIsAcross(n, m, w);
      }
    } else {
      SameIsSound(m, w);
    }
  }

  lemma SameIsSound(m: nat, w: nat)
    ensures Sound(m, m, w) && Sound(m, w, w)
  {
  }

  lemma EqualWorthIsAcross(m: nat, n: nat, w: nat)
    requires 0 < m < n && 0 < w
    ensures Worth(m, w) == Worth(n, w) ==> m <= w < n
  {
    if w <= m {
      WorthFalls(m, n, w);
    }
  }

  lemma SdkIsByRank(x: nat, o: nat, requested: nat)
    ensures SdkVerdict(x, o, requested) == By(SdkRank(x, requested), SdkRank(o, requested))
  {
  }

  // ----- The tests without a filter: what they say of any two values -----

  /** An attribute that is requested: of two that differ, one that is set is better and one that is not is worse. */
  lemma WantedIff(x: nat, o: nat, requested: nat)
    ensures Wanted(x, o, requested) == Better <==> requested != 0 && x != o && x != 0
    ensures Wanted(x, o, requested) == Worse <==> requested != 0 && x == 0 && o != 0
  {
  }

  lemma WantedPartIff(x: bv8, o: bv8, requested: bv8, mask: bv8)
    ensures
      var p, q, w := Part(x, mask), Part(o, mask), Part(requested, mask);
      && (WantedPart(x, o, requested, mask) == Better <==> w != 0 && p != q && p != 0)
      && (WantedPart(x, o, requested, mask) == Worse <==> w != 0 && p == 0 && q != 0)
  {
    hide Part;
    DifferIff(x, o, mask);
    PartIsZero(x, mask);
    PartIsZero(o, mask);
    PartIsZero(requested, mask);
  }

  /** Of two screen sizes that differ the larger is better; one that is not set counts as normal, which is 2, if at
      least that is requested, and loses to normal itself. */
  lemma SizeIff(c: Config, o: Config, r: Config)
    ensures
      var x, y, w := Part(c.screenLayout, MASK_SCREENSIZE), Part(o.screenLayout, MASK_SCREENSIZE),
          Part(r.screenLayout, MASK_SCREENSIZE);
      && (SizeClassVerdict(c, o, r) == Tie <==> x == y || w == 0)
      && (SizeClassVerdict(c, o, r) == Better <==>
            w != 0 && x != y && if w < 2 then x > y else if x == 0 then y == 1 else if y == 0 then x >= 2 else x > y)
  {
    hide Part;
    DifferIff(c.screenLayout, o.screenLayout, MASK_SCREENSIZE);
  }

  /** Of two that are set, only the one that is requested is better, and for the flags of navigation neither. */
  lemma HiddenIff(x: nat, o: nat, requested: nat)
    ensures KeysHiddenVerdict(x, o, requested) == Better
       <==> requested != 0 && x != o && x != 0 && (o == 0 || x == requested)
    ensures KeysHiddenVerdict(x, o, requested) == Worse
       <==> requested != 0 && x != o && o != 0 && (x == 0 || o == requested)
    ensures NavHiddenVerdict(x, o, requested) == Better <==> requested != 0 && x != 0 && o == 0
    ensures NavHiddenVerdict(x, o, requested) == Worse <==> requested != 0 && x == 0 && o != 0
  {
  }

  // ----- Each group of tests compares ranks, for configurations that match the request -----

  /** A guard is whether any attribute of its group is set; without it the tests come to the same. */
  lemma GuardsDoNotMatter(c: Config, o: Config, r: Config)
    ensures ImsiVerdict(c, o, r) == Then(Wanted(c.mcc, o.mcc, r.mcc), Wanted(c.mnc, o.mnc, r.mnc))
    ensures LocaleVerdict(c, o, r)
         == Then(Wanted(c.language0, o.language0, r.language0), Wanted(c.country0, o.country0, r.country0))
    ensures LayoutVerdict(c, o, r)
         == Then(SizeClassVerdict(c, o, r), WantedPart(c.screenLayout, o.screenLayout, r.screenLayout, MASK_SCREENLONG))
    ensures ModeVerdict(c, o, r)
         == Then(WantedPart(c.uiMode, o.uiMode, r.uiMode, MASK_UI_MODE_TYPE),
                 WantedPart(c.uiMode, o.uiMode, r.uiMode, MASK_UI_MODE_NIGHT))
    ensures ScreenTypeVerdict(c, o, r)
        == Then(DensityVerdict(c, o, r), Wanted(c.touchscreen, o.touchscreen, r.touchscreen))
    ensures ScreenSizeVerdict(c, o, r)
         == Then(Wanted(c.screenWidth, o.screenWidth, r.screenWidth),
             Wanted(c.screenHeight, o.screenHeight, r.screenHeight))
    ensures VersionVerdict(c, o, r)
         == Then(SdkVerdict(c.sdkVersion, o.sdkVersion, r.sdkVersion),
             Wanted(c.minorVersion, o.minorVersion, r.minorVersion))
  {
    hide DensityWins;
  }

  /** The same for what a configuration has to be, to match. */
  lemma MatchingFields(c: Config, r: Config)
    requires Match(c, r)
    ensures !Odd(c.mcc, r.mcc) && !Odd(c.mnc, r.mnc) && !Odd(c.language0, r.language0) && !Odd(c.country0, r.country0)
    ensures !Odd(Part(c.screenLayout, MASK_SCREENLONG), Part(r.screenLayout, MASK_SCREENLONG))
    ensures !Odd(Part(c.uiMode, MASK_UI_MODE_TYPE), Part(r.uiMode, MASK_UI_MODE_TYPE))
    ensures !Odd(Part(c.uiMode, MASK_UI_MODE_NIGHT), Part(r.uiMode, MASK_UI_MODE_NIGHT))
    ensures !Odd(c.orientation, r.orientation) && !Odd(c.touchscreen, r.touchscreen)
    ensures !Odd(Part(c.inputFlags, MASK_NAVHIDDEN), Part(r.inputFlags, MASK_NAVHIDDEN))
    ensures !Odd(c.keyboard, r.keyboard) && !Odd(c.navigation, r.navigation)
    ensures !Odd(c.screenWidth, r.screenWidth) && !Odd(c.screenHeight, r.screenHeight)
    ensures !Odd(c.minorVersion, r.minorVersion)
    ensures
      var x, y := Part(c.inputFlags, MASK_KEYSHIDDEN), Part(r.inputFlags, MASK_KEYSHIDDEN);
      !(Odd(x, y) && (x != KEYSHIDDEN_NO || y != KEYSHIDDEN_SOFT))
  {
    NoPartOfNothing();
    hide Part;
  }

  lemma TwoWantedByRank(x: nat, y: nat, x': nat, y': nat, rx: nat, ry: nat)
    requires !Odd(x, rx) && !Odd(x', rx) && !Odd(y, ry) && !Odd(y', ry)
    ensures Compare([SetRank(x, rx), SetRank(y, ry)], [SetRank(x', rx), SetRank(y', ry)])
        == Then(Wanted(x, x', rx), Wanted(y, y', ry))
  {
    hide Compare, By, Wanted, SetRank, Odd;
    CompareTwo(SetRank(x, rx), SetRank(y, ry), SetRank(x', rx), SetRank(y', ry));
    WantedIsByRank(x, x', rx);
    WantedIsByRank(y, y', ry);
  }

  lemma NamesByRank(c: Config, o: Config, r: Config)
    requires Match(c, r) && Match(o, r)
    ensures ImsiVerdict(c, o, r) == Compare(ImsiRanks(c, r), ImsiRanks(o, r))
    ensures LocaleVerdict(c, o, r) == Compare(LocaleRanks(c, r), LocaleRanks(o, r))
  {
    hide Compare, Wanted, SetRank, Odd, Match, ImsiVerdict, LocaleVerdict;
    MatchingFields(c, r);
    MatchingFields(o, r);
    GuardsDoNotMatter(c, o, r);
    TwoWantedByRank(c.mcc, c.mnc, o.mcc, o.mnc, r.mcc, r.mnc);
    TwoWantedByRank(c.language0, c.country0, o.language0, o.country0, r.language0, r.country0);
  }

  lemma LayoutByRank(c: Config, o: Config, r: Config)
    requires Match(c, r) && Match(o, r)
    ensures LayoutVerdict(c, o, r) == Compare(LayoutRanks(c, r), LayoutRanks(o, r))
  {
    hide Compare, By, WantedPart, PartRank, SizeClassRank, SizeClassVerdict, Odd, Part, Match, LayoutVerdict;
    MatchingFields(c, r);
    MatchingFields(o, r);
    GuardsDoNotMatter(c, o, r);
    SizeClassIsByRank(c, o, r);
    WantedPartIsByRank(c.screenLayout, o.screenLayout, r.screenLayout, MASK_SCREENLONG);
    var x, y := LayoutRanks(c, r), LayoutRanks(o, r);
    CompareTwo(x[0], x[1], y[0], y[1]);
  }

  lemma ModeByRank(c: Config, o: Config, r: Config)
    requires Match(c, r) && Match(o, r)
    ensures ModeVerdict(c, o, r) == Compare(ModeRanks(c, r), ModeRanks(o, r))
  {
    hide Compare, By, WantedPart, PartRank, Odd, Part, Match, ModeVerdict;
    MatchingFields(c, r);
    MatchingFields(o, r);
    GuardsDoNotMatter(c, o, r);
    WantedPartIsByRank(c.uiMode, o.uiMode, r.uiMode, MASK_UI_MODE_TYPE);
    WantedPartIsByRank(c.uiMode, o.uiMode, r.uiMode, MASK_UI_MODE_NIGHT);
    var x, y := ModeRanks(c, r), ModeRanks(o, r);
    CompareTwo(x[0], x[1], y[0], y[1]);
  }

  lemma ScreenTypeByRankIff(c: Config, o: Config, r: Config)
    requires Match(c, r) && Match(o, r) && !Clash(c, o)
    ensures ScreenTypeVerdict(c, o, r) == Compare(ScreenTypeRanks(c, r), ScreenTypeRanks(o, r)) <==> SoundFor(c, o, r)
  {
    hide Compare, By, Wanted, SetRank, Odd, Match, ScreenTypeVerdict, DensityVerdict, Worth, Effective, Bit, Clash,
      SoundFor;
    MatchingFields(c, r);
    MatchingFields(o, r);
    GuardsDoNotMatter(c, o, r);
    DensityIsByRankIff(c, o, r);
    WantedIsByRank(c.touchscreen, o.touchscreen, r.touchscreen);
    var x, y := ScreenTypeRanks(c, r), ScreenTypeRanks(o, r);
    assert x == [x[0], x[1]] + [x[2]] && y == [y[0], y[1]] + [y[2]];
    CompareAppends([x[0], x[1]], [y[0], y[1]], [x[2]], [y[2]]);
    CompareTwo(x[0], x[1], y[0], y[1]);
    CompareOne(x[2], y[2]);
  }

  lemma InputByRank(c: Config, o: Config, r: Config)
    requires Match(c, r) && Match(o, r)
    ensures InputVerdict(c, o, r) == Compare(InputRanks(c, r), InputRanks(o, r))
  {
    hide Compare, By, Wanted, SetRank, PartRank, KeysHiddenRank, KeysHiddenVerdict, NavHiddenVerdict, Odd, Part, Match,
      InputVerdict;
    MatchingFields(c, r);
    MatchingFields(o, r);
    InputGuardDoesNotMatter(c, o, r);
    KeysHiddenIsByRank(Part(c.inputFlags, MASK_KEYSHIDDEN), Part(o.inputFlags, MASK_KEYSHIDDEN),
                       Part(r.inputFlags, MASK_KEYSHIDDEN));
    NavHiddenIsByRank(c, o, r);
    WantedIsByRank(c.keyboard, o.keyboard, r.keyboard);
    WantedIsByRank(c.navigation, o.navigation, r.navigation);
    var x, y := InputRanks(c, r), InputRanks(o, r);
    CompareFour(x[0], x[1], x[2], x[3], y[0], y[1], y[2], y[3]);
  }

  lemma InputGuardDoesNotMatter(c: Config, o: Config, r: Config)
    ensures InputVerdict(c, o, r)
         == Then(KeysHiddenVerdict(Part(c.inputFlags, MASK_KEYSHIDDEN), Part(o.inputFlags, MASK_KEYSHIDDEN),
                                   Part(r.inputFlags, MASK_KEYSHIDDEN)),
            Then(NavHiddenVerdict(Part(c.inputFlags, MASK_NAVHIDDEN), Part(o.inputFlags, MASK_NAVHIDDEN),
                                  Part(r.inputFlags, MASK_NAVHIDDEN)),
            Then(Wanted(c.keyboard, o.keyboard, r.keyboard), Wanted(c.navigation, o.navigation, r.navigation))))
  {
    hide Part;
  }

  lemma NumbersByRank(c: Config, o: Config, r: Config)
    requires Match(c, r) && Match(o, r)
    ensures ScreenSizeVerdict(c, o, r) == Compare(ScreenSizeRanks(c, r), ScreenSizeRanks(o, r))
    ensures VersionVerdict(c, o, r) == Compare(VersionRanks(c, r), VersionRanks(o, r))
  {
    hide Compare, By, Wanted, SetRank, SdkRank, SdkVerdict, Odd, Match, ScreenSizeVerdict, VersionVerdict;
    MatchingFields(c, r);
    MatchingFields(o, r);
    GuardsDoNotMatter(c, o, r);
    TwoWantedByRank(c.screenWidth, c.screenHeight, o.screenWidth, o.screenHeight, r.screenWidth, r.screenHeight);
    SdkIsByRank(c.sdkVersion, o.sdkVersion, r.sdkVersion);
    WantedIsByRank(c.minorVersion, o.minorVersion, r.minorVersion);
    var x, y := VersionRanks(c, r), VersionRanks(o, r);
    CompareTwo(x[0], x[1], y[0], y[1]);
  }

  // ----- The whole -----

  lemma EarlyIsByRank(c: Config, o: Config, r: Config)
    requires Match(c, r) && Match(o, r)
    ensures EarlyVerdict(c, o, r) == Compare(EarlyRanks(c, r), EarlyRanks(o, r))
  {
    hide Compare, By, Wanted, SetRank, Odd, Match, ImsiVerdict, LocaleVerdict, LayoutVerdict, ModeVerdict, ImsiRanks,
      LocaleRanks, LayoutRanks, ModeRanks;
    MatchingFields(c, r);
    MatchingFields(o, r);
    NamesByRank(c, o, r);
    LayoutByRank(c, o, r);
    ModeByRank(c, o, r);
    var t, t' := [SetRank(c.orientation, r.orientation)], [SetRank(o.orientation, r.orientation)];
    assert Compare(t, t') == Wanted(c.orientation, o.orientation, r.orientation) by {
      WantedIsByRank(c.orientation, o.orientation, r.orientation);
      CompareOne(t[0], t'[0]);
    }
    var u, u' := t + ModeRanks(c, r), t' + ModeRanks(o, r);
    CompareAppends(t, t', ModeRanks(c, r), ModeRanks(o, r));
    CompareAppends(LayoutRanks(c, r), LayoutRanks(o, r), u, u');
    CompareAppends(LocaleRanks(c, r), LocaleRanks(o, r), LayoutRanks(c, r) + u, LayoutRanks(o, r) + u');
    CompareAppends(ImsiRanks(c, r), ImsiRanks(o, r), LocaleRanks(c, r) + (LayoutRanks(c, r) + u),
                   LocaleRanks(o, r) + (LayoutRanks(o, r) + u'));
  }

  lemma LateIsByRank(c: Config, o: Config, r: Config)
    requires Match(c, r) && Match(o, r)
    ensures LateVerdict(c, o, r) == Compare(LateRanks(c, r), LateRanks(o, r))
  {
    hide Compare, Match, InputVerdict, ScreenSizeVerdict, VersionVerdict, InputRanks, ScreenSizeRanks, VersionRanks;
    InputByRank(c, o, r);
    NumbersByRank(c, o, r);
    CompareAppends(ScreenSizeRanks(c, r), ScreenSizeRanks(o, r), VersionRanks(c, r), VersionRanks(o, r));
    CompareAppends(InputRanks(c, r), InputRanks(o, r), ScreenSizeRanks(c, r) + VersionRanks(c, r),
                   ScreenSizeRanks(o, r) + VersionRanks(o, r));
  }

  /** The better of two that match is the one with the better ranks, every test falling through exactly on a tie of
      ranks, if and only if a test before the density tells them apart or the density rule compares its products
      right. */
  lemma BetterIsByRankIff(c: Config, o: Config, r: Config)
    requires Match(c, r) && Match(o, r) && !Clash(c, o)
    ensures BetterVerdict(c, o, r) == Compare(Ranks(c, r), Ranks(o, r))
       <==> EarlyVerdict(c, o, r) != Tie || SoundFor(c, o, r)
  {
    hide Compare, Match, Clash, SoundFor, EarlyVerdict, ScreenTypeVerdict, LateVerdict, EarlyRanks, ScreenTypeRanks,
      LateRanks, Worth;
    EarlyIsByRank(c, o, r);
    ScreenTypeByRankIff(c, o, r);
    if !SoundFor(c, o, r) {
      ScreenTypeTells(c, o, r);
    }
    LateIsByRank(c, o, r);
    CompareAppends(ScreenTypeRanks(c, r), ScreenTypeRanks(o, r), LateRanks(c, r), LateRanks(o, r));
    CompareAppends(EarlyRanks(c, r), EarlyRanks(o, r), ScreenTypeRanks(c, r) + LateRanks(c, r),
                   ScreenTypeRanks(o, r) + LateRanks(o, r));
  }

  /** The density rule always tells two densities apart. */
  lemma ScreenTypeTells(c: Config, o: Config, r: Config)
    requires !Clash(c, o) && !SoundFor(c, o, r)
    ensures ScreenTypeVerdict(c, o, r) != Tie && Compare(ScreenTypeRanks(c, r), ScreenTypeRanks(o, r)) != Tie
  {
    var x, y := ScreenTypeRanks(c, r), ScreenTypeRanks(o, r);
    hide Compare, DensityVerdict, SoundFor;
    DensityIsByRankIff(c, o, r);
    GuardsDoNotMatter(c, o, r);
    assert x == [x[0], x[1]] + [x[2]] && y == [y[0], y[1]] + [y[2]];
    CompareAppends([x[0], x[1]], [y[0], y[1]], [x[2]], [y[2]]);
    CompareTwo(x[0], x[1], y[0], y[1]);
  }

  lemma BetterIsByRank(c: Config, o: Config, r: Config)
    requires Match(c, r) && Match(o, r) && !Clash(c, o) && SoundFor(c, o, r)
    ensures BetterVerdict(c, o, r) == Compare(Ranks(c, r), Ranks(o, r))
  {
    hide Compare, Match, Clash, SoundFor, EarlyVerdict, BetterVerdict, Ranks;
    BetterIsByRankIff(c, o, r);
  }

  /** So the better match of two is the one with the greater vector of ranks. */
  lemma BetterIff(c: Config, o: Config, r: Config)
    requires Match(c, r) && Match(o, r) && !Clash(c, o) && SoundFor(c, o, r)
    ensures IsBetterThan(c, o, Requested(r)) <==> Compare(Ranks(c, r), Ranks(o, r)) == Better
  {
    hide Compare, Match, Clash, SoundFor, BetterVerdict, Ranks;
    BetterIsByRank(c, o, r);
  }

  /** Swapping two configurations turns the verdict round, whatever the density rule is good for. */
  lemma BetterFlips(c: Config, o: Config, r: Config)
    requires Match(c, r) && Match(o, r) && !Clash(c, o)
    ensures BetterVerdict(o, c, r) == Flip(BetterVerdict(c, o, r))
  {
    hide Compare, Match, EarlyVerdict, LateVerdict, EarlyRanks, LateRanks;
    EarlyFlips(c, o, r);
    LateIsByRank(c, o, r);
    LateIsByRank(o, c, r);
    CompareFlips(LateRanks(c, r), LateRanks(o, r));
    hide Clash;
    ScreenTypeFlips(c, o, r);
  }

  lemma ScreenTypeFlips(c: Config, o: Config, r: Config)
    requires Match(c, r) && Match(o, r) && !Clash(c, o)
    ensures ScreenTypeVerdict(o, c, r) == Flip(ScreenTypeVerdict(c, o, r))
  {
    MatchingFields(c, r);
    MatchingFields(o, r);
    hide Match, Times32;
    WantedIsByRank(c.touchscreen, o.touchscreen, r.touchscreen);
    WantedIsByRank(o.touchscreen, c.touchscreen, r.touchscreen);
  }

  lemma EarlyFlips(c: Config, o: Config, r: Config)
    requires Match(c, r) && Match(o, r)
    ensures EarlyVerdict(o, c, r) == Flip(EarlyVerdict(c, o, r))
  {
    hide Compare, Match, EarlyVerdict, EarlyRanks;
    EarlyIsByRank(c, o, r);
    EarlyIsByRank(o, c, r);
    CompareFlips(EarlyRanks(c, r), EarlyRanks(o, r));
  }

  /** What a strict weak order says of three. */
  predicate Ordered(c: Config, d: Config, e: Config, q: Request) {
    && !IsBetterThan(c, c, q)
    && (IsBetterThan(c, d, q) ==> !IsBetterThan(d, c, q))
    && (IsBetterThan(c, d, q) && IsBetterThan(d, e, q) ==> IsBetterThan(c, e, q))
    && (!IsBetterThan(c, d, q) && !IsBetterThan(d, e, q) ==> !IsBetterThan(c, e, q))
  }

  /** For a fixed request, being the better match is a strict weak order on the configurations that match it, as long as
      no product of the density rule compares wrong and none of them spells the default density out where another leaves
      it open. */
  lemma BetterIsAStrictWeakOrder(c: Config, d: Config, e: Config, r: Config)
    requires Match(c, r) && Match(d, r) && Match(e, r)
    requires !Clash(c, d) && !Clash(d, e) && !Clash(c, e)
    requires SoundFor(c, d, r) && SoundFor(d, e, r) && SoundFor(c, e, r)
    ensures Ordered(c, d, e, Requested(r))
  {
    ClashIsSymmetric(c, d);
    hide Compare, Match, Clash, SoundFor, BetterVerdict, Ranks;
    BetterFlips(c, c, r);
    BetterFlips(c, d, r);
    BetterIsByRank(c, d, r);
    BetterIsByRank(d, e, r);
    BetterIsByRank(c, e, r);
    CompareComposes(Ranks(c, r), Ranks(d, r), Ranks(e, r));
  }

  /** Whether the order holds among all configurations that match a request and do not clash. */
  ghost predicate IsAnOrder(r: Config) {
    forall c: Config, d: Config, e: Config :: NoneClash(c, d, e) && Match(c, r) && Match(d, r) && Match(e, r)
      ==> Ordered(c, d, e, Requested(r))
  }

  predicate NoneClash(c: Config, d: Config, e: Config) { !Clash(c, d) && !Clash(d, e) && !Clash(c, e) }

  /** It is one for exactly the requests up to 32770 dots an inch, and for DENSITY_NONE. */
  lemma BetterIsAnOrderIff(r: Config)
    ensures IsAnOrder(r) <==> SafeRequest(Effective(r.density))
  {
    hide Match, Clash, Ordered, SafeRequest;
    if SafeRequest(Effective(r.density)) {
      forall c: Config, d: Config, e: Config | NoneClash(c, d, e) && Match(c, r) && Match(d, r) && Match(e, r)
        ensures Ordered(c, d, e, Requested(r))
      {
        SafeIsSoundFor(c, d, r);
        SafeIsSoundFor(d, e, r);
        SafeIsSoundFor(c, e, r);
        BetterIsAStrictWeakOrder(c, d, e, r);
      }
    } else {
      var x, y, z := UnsafeHasARing(Effective(r.density));
      var c, d, e := OfDensity(x), OfDensity(y), OfDensity(z);
      RingIsNoOrder(x, y, z, r);
      assert NoneClash(c, d, e) && Match(c, r) && Match(d, r) && Match(e, r) && !Ordered(c, d, e, Requested(r));
    }
  }

  lemma SafeIsSoundFor(c: Config, o: Config, r: Config)
    requires SafeRequest(Effective(r.density))
    ensures SoundFor(c, o, r)
  {
    SafeIsSound(Effective(c.density), Effective(o.density), Effective(r.density));
  }

  /** A configuration that says nothing but a density. */
  function OfDensity(d: uint16): Config {
    Config(0, 0, 0, 0, 0, 0, 0, 0, d, 0, 0, 0, 0, 0, 0, 0, 0, 0, 0, 0, 0)
  }

  lemma RingIsNoOrder(x: nat, y: nat, z: nat, r: Config)
    requires Ring(x, y, z, Effective(r.density))
    ensures
      var c, d, e := OfDensity(x), OfDensity(y), OfDensity(z);
      && NoneClash(c, d, e) && Match(c, r) && Match(d, r) && Match(e, r) && !Ordered(c, d, e, Requested(r))
  {
    OfDensityMatches(x, r);
    OfDensityMatches(y, r);
    OfDensityMatches(z, r);
    hide Match, BetterVerdict;
    OnlyDensityTells(x, y, r);
    OnlyDensityTells(y, z, r);
    OnlyDensityTells(x, z, r);
    RuleIsATotalOrder(x, z, y, Effective(r.density));
    hide DensityWins;
  }

  lemma OfDensityMatches(d: uint16, r: Config)
    ensures Match(OfDensity(d), r)
  {
    NoPartOfNothing();
    hide Part;
  }

  lemma OnlyDensityTells(x: uint16, y: uint16, r: Config)
    requires x > 0 && y > 0 && x != y
    ensures BetterVerdict(OfDensity(x), OfDensity(y), r) == Win(DensityWins(x, y, Effective(r.density)))
  {
    hide LateVerdict, DensityWins;
    NothingEarlyTells(x, y, r);
    hide EarlyVerdict;
  }

  lemma NothingEarlyTells(x: uint16, y: uint16, r: Config)
    ensures EarlyVerdict(OfDensity(x), OfDensity(y), r) == Tie
  {
  }

  lemma ClashIsSymmetric(c: Config, o: Config)
    ensures Clash(c, o) == Clash(o, c)
    ensures !Clash(c, c)
  {
  }

  // ----- Where that fails -----

  /** Two that match are each better than the other exactly if nothing before the density tells them apart, one leaves
      open the density that the other spells out, and no less than that is requested. */
  lemma BothBetterIff(c: Config, o: Config, r: Config)
    requires Match(c, r) && Match(o, r)
    ensures IsBetterThan(c, o, Requested(r)) && IsBetterThan(o, c, Requested(r))
       <==> EarlyVerdict(c, o, r) == Tie && Clash(c, o) && Effective(r.density) >= 160
  {
    if !Clash(c, o) {
      BetterFlips(c, o, r);
    } else {
      EarlyFlips(c, o, r);
      hide EarlyVerdict, Match;
      assert c.ScreenType() || o.ScreenType();
    }
  }

  /** Of two that clash, neither is better if less is requested, whatever the later tests would say. */
  lemma NeitherBetterForLess(c: Config, o: Config, r: Config)
    requires Match(c, r) && Match(o, r) && EarlyVerdict(c, o, r) == Tie && Clash(c, o) && Effective(r.density) < 160
    ensures !IsBetterThan(c, o, Requested(r)) && !IsBetterThan(o, c, Requested(r))
  {
    EarlyFlips(c, o, r);
    hide EarlyVerdict, Match;
    assert c.ScreenType() || o.ScreenType();
  }

  /** Of configurations that do not match, each can be better than the other. */
  lemma FilterIsNeeded(c: Config, o: Config, r: Config)
    requires r.mcc != 0 && c.mcc != 0 && o.mcc != 0 && c.mcc != o.mcc
    ensures IsBetterThan(c, o, Requested(r)) && IsBetterThan(o, c, Requested(r))
    ensures !Match(c, r) || !Match(o, r)
  {
    hide MatchLocale, MatchScreenConfig, MatchScreenType, MatchInput, MatchScreenSize, MatchVersion, LocaleVerdict,
      LayoutVerdict, ModeVerdict, ScreenTypeVerdict, LateVerdict;
  }

  // ----- The configuration that is requested is the best there is -----

  lemma MatchesItself(r: Config)
    ensures Match(r, r)
  {
    hide Part;
  }

  lemma SetRankOfRequest(x: nat, r: nat)
    ensures SetRank(x, r) <= SetRank(r, r)
  {
  }

  lemma PartRankOfRequest(x: bv8, r: bv8, mask: bv8)
    ensures PartRank(x, r, mask) <= PartRank(r, r, mask)
  {
  }

  lemma SizeClassOfRequest(c: Config, r: Config)
    requires Match(c, r)
    ensures SizeClassRank(Part(c.screenLayout, MASK_SCREENSIZE), Part(r.screenLayout, MASK_SCREENSIZE))
         <= SizeClassRank(Part(r.screenLayout, MASK_SCREENSIZE), Part(r.screenLayout, MASK_SCREENSIZE))
  {
    NoPartOfNothing();
    hide Part, MatchImsi, MatchLocale, MatchScreenType, MatchInput, MatchScreenSize, MatchVersion;
  }

  lemma EarlyGroups(ranks: seq<real>, imsi: seq<real>, locale: seq<real>, layout: seq<real>, o: real, mode: seq<real>)
    requires |imsi| == |locale| == |layout| == |mode| == 2
    requires ranks == imsi + (locale + (layout + ([o] + mode)))
    ensures ranks == [imsi[0], imsi[1], locale[0], locale[1], layout[0], layout[1], o, mode[0], mode[1]]
  {
  }

  lemma EarlyRanksOfRequest(c: Config, r: Config)
    requires Match(c, r)
    ensures forall k :: 0 <= k < 9 ==> EarlyRanks(c, r)[k] <= EarlyRanks(r, r)[k]
  {
    hide Match, SetRank, PartRank, SizeClassRank, Part;
    SizeClassOfRequest(c, r);
    EarlyGroups(EarlyRanks(c, r), ImsiRanks(c, r), LocaleRanks(c, r), LayoutRanks(c, r),
                SetRank(c.orientation, r.orientation), ModeRanks(c, r));
    EarlyGroups(EarlyRanks(r, r), ImsiRanks(r, r), LocaleRanks(r, r), LayoutRanks(r, r),
                SetRank(r.orientation, r.orientation), ModeRanks(r, r));
    SetRankOfRequest(c.mcc, r.mcc);
    SetRankOfRequest(c.mnc, r.mnc);
    SetRankOfRequest(c.language0, r.language0);
    SetRankOfRequest(c.country0, r.country0);
    SetRankOfRequest(c.orientation, r.orientation);
    PartRankOfRequest(c.screenLayout, r.screenLayout, MASK_SCREENLONG);
    PartRankOfRequest(c.uiMode, r.uiMode, MASK_UI_MODE_TYPE);
    PartRankOfRequest(c.uiMode, r.uiMode, MASK_UI_MODE_NIGHT);
  }

  lemma LateRanksOfRequest(c: Config, r: Config)
    requires Match(c, r)
    ensures forall k :: 0 <= k < 8 ==> LateRanks(c, r)[k] <= LateRanks(r, r)[k]
  {
    hide SetRank, PartRank, Part, MatchImsi, MatchLocale, MatchScreenConfig, MatchScreenType, MatchInput,
      MatchScreenSize;
    SetRankOfRequest(c.keyboard, r.keyboard);
    SetRankOfRequest(c.navigation, r.navigation);
    SetRankOfRequest(c.screenWidth, r.screenWidth);
    SetRankOfRequest(c.screenHeight, r.screenHeight);
    SetRankOfRequest(c.minorVersion, r.minorVersion);
    PartRankOfRequest(c.inputFlags, r.inputFlags, MASK_NAVHIDDEN);
  }

  lemma ScreenTypeRanksOfRequest(c: Config, r: Config)
    ensures Compare(ScreenTypeRanks(c, r), ScreenTypeRanks(r, r)) != Better
  {
    var d, w := Effective(c.density), Effective(r.density);
    if d > w {
      WorthFalls(w, d, w);
      QuotientIs((w * w) as real, w as real, w as real);
    } else {
      SetRankOfRequest(c.touchscreen, r.touchscreen);
      NowhereBelow(ScreenTypeRanks(c, r), ScreenTypeRanks(r, r));
    }
  }

  /** The configuration that is requested matches, and none that matches is better. */
  lemma RequestIsBest(c: Config, r: Config)
    requires Match(c, r) && !Clash(c, r)
    ensures Match(r, r) && !IsBetterThan(c, r, Requested(r))
  {
    MatchesItself(r);
    assert SoundFor(c, r, r) by { SameIsSound(Effective(c.density), Effective(r.density)); }
    hide Compare, Match, Clash, SoundFor, BetterVerdict, EarlyRanks, ScreenTypeRanks, LateRanks;
    BetterIsByRank(c, r, r);
    EarlyRanksOfRequest(c, r);
    NowhereBelow(EarlyRanks(c, r), EarlyRanks(r, r));
    ScreenTypeRanksOfRequest(c, r);
    LateRanksOfRequest(c, r);
    NowhereBelow(LateRanks(c, r), LateRanks(r, r));
    CompareAppends(ScreenTypeRanks(c, r), ScreenTypeRanks(r, r), LateRanks(c, r), LateRanks(r, r));
    CompareAppends(EarlyRanks(c, r), EarlyRanks(r, r), ScreenTypeRanks(c, r) + LateRanks(c, r),
                   ScreenTypeRanks(r, r) + LateRanks(r, r));
  }
}
