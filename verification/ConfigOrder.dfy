/** What order the comparisons of configurations are. */
module ConfigOrder {
  import opened Config
  import opened Lex

  function Bit(b: bool): real { if b then 1.0 else 0.0 }

  // ----- isMoreSpecificThan counts, in order of importance, which attributes are specified -----

  function ImsiSpecifics(c: Config): (r: seq<real>)
    ensures |r| == 2
  {
    [Bit(c.mcc != 0), Bit(c.mnc != 0)]
  }

  function LocaleSpecifics(c: Config): (r: seq<real>)
    ensures |r| == 2
  {
    [Bit(c.language0 != 0), Bit(c.country0 != 0)]
  }

  function LayoutSpecifics(c: Config): (r: seq<real>)
    ensures |r| == 2
  {
    [Bit(c.screenLayout & MASK_SCREENSIZE != 0), Bit(c.screenLayout & MASK_SCREENLONG != 0)]
  }

  function ModeSpecifics(c: Config): (r: seq<real>)
    ensures |r| == 2
  {
    [Bit(c.uiMode & MASK_UI_MODE_TYPE != 0), Bit(c.uiMode & MASK_UI_MODE_NIGHT != 0)]
  }

  function InputSpecifics(c: Config): (r: seq<real>)
    ensures |r| == 4
  {
    [Bit(c.inputFlags & MASK_KEYSHIDDEN != 0), Bit(c.inputFlags & MASK_NAVHIDDEN != 0), Bit(c.keyboard != 0),
     Bit(c.navigation != 0)]
  }

  function SizeSpecifics(c: Config): (r: seq<real>)
    ensures |r| == 2
  {
    [Bit(c.screenWidth != 0), Bit(c.screenHeight != 0)]
  }

  function VersionSpecifics(c: Config): (r: seq<real>)
    ensures |r| == 2
  {
    [Bit(c.sdkVersion != 0), Bit(c.minorVersion != 0)]
  }

  function LastSpecifics(c: Config): (r: seq<real>)
    ensures |r| == 11
  {
    ModeSpecifics(c) + ([Bit(c.touchscreen != 0)] + (InputSpecifics(c) + (SizeSpecifics(c) + VersionSpecifics(c))))
  }

  /** One for each attribute that is specified, the most important first. */
  function Specifics(c: Config): (r: seq<real>)
    ensures |r| == 18
  {
    ImsiSpecifics(c) + (LocaleSpecifics(c) + (LayoutSpecifics(c) + ([Bit(c.orientation != 0)] + LastSpecifics(c))))
  }

  lemma CompareTwo(w: real, x: real, w': real, x': real)
    ensures Compare([w, x], [w', x']) == Then(By(w, w'), By(x, x'))
  {
    assert [w, x] == [w] + [x] && [w', x'] == [w'] + [x'];
    CompareAppends([w], [w'], [x], [x']);
    CompareOne(w, w');
    CompareOne(x, x');
  }

  lemma CompareFour(w: real, x: real, y: real, z: real, w': real, x': real, y': real, z': real)
    ensures Compare([w, x, y, z], [w', x', y', z']) == Then(By(w, w'), Then(By(x, x'), Then(By(y, y'), By(z, z'))))
  {
    assert [w, x, y, z] == [w, x] + [y, z] && [w', x', y', z'] == [w', x'] + [y', z'];
    CompareAppends([w, x], [w', x'], [y, z], [y', z']);
    CompareTwo(w, x, w', x');
    CompareTwo(y, z, y', z');
  }

  lemma SpecifiedIsByBit(x: nat, o: nat)
    ensures Specified(x, o) == By(Bit(x != 0), Bit(o != 0))
  {
  }

  lemma SpecifiedPartIsByBit(x: bv8, o: bv8, mask: bv8)
    ensures SpecifiedPart(x, o, mask) == By(Bit(x & mask != 0), Bit(o & mask != 0))
  {
    DifferInBits(x, o, mask);
  }

  /** Guarding tests with whether any of their bits is set does not change what they come to. */
  lemma GuardsDoNotMatter(c: Config, o: Config)
    ensures ImsiSpecified(c, o) == Then(Specified(c.mcc, o.mcc), Specified(c.mnc, o.mnc))
    ensures LocaleSpecified(c, o) == Then(Specified(c.language0, o.language0), Specified(c.country0, o.country0))
    ensures LayoutSpecified(c, o)
         == Then(SpecifiedPart(c.screenLayout, o.screenLayout, MASK_SCREENSIZE),
                 SpecifiedPart(c.screenLayout, o.screenLayout, MASK_SCREENLONG))
    ensures ModeSpecified(c, o)
         == Then(SpecifiedPart(c.uiMode, o.uiMode, MASK_UI_MODE_TYPE),
             SpecifiedPart(c.uiMode, o.uiMode, MASK_UI_MODE_NIGHT))
    ensures InputSpecified(c, o)
         == Then(SpecifiedPart(c.inputFlags, o.inputFlags, MASK_KEYSHIDDEN),
            Then(SpecifiedPart(c.inputFlags, o.inputFlags, MASK_NAVHIDDEN),
            Then(Specified(c.keyboard, o.keyboard), Specified(c.navigation, o.navigation))))
    ensures SizeSpecified(c, o)
         == Then(Specified(c.screenWidth, o.screenWidth), Specified(c.screenHeight, o.screenHeight))
    ensures VersionSpecified(c, o)
         == Then(Specified(c.sdkVersion, o.sdkVersion), Specified(c.minorVersion, o.minorVersion))
  {
  }

  lemma SpecificsDecide2(w: nat, x: nat, w': nat, x': nat)
    ensures Compare([Bit(w != 0), Bit(x != 0)], [Bit(w' != 0), Bit(x' != 0)])
        == Then(Specified(w, w'), Specified(x, x'))
  {
    hide Compare, By, Bit, Specified;
    CompareTwo(Bit(w != 0), Bit(x != 0), Bit(w' != 0), Bit(x' != 0));
    SpecifiedIsByBit(w, w');
    SpecifiedIsByBit(x, x');
  }

  lemma SpecificsDecideParts(x: bv8, o: bv8, m: bv8, n: bv8)
    ensures Compare([Bit(x & m != 0), Bit(x & n != 0)], [Bit(o & m != 0), Bit(o & n != 0)])
         == Then(SpecifiedPart(x, o, m), SpecifiedPart(x, o, n))
  {
    hide Compare, By, Bit, SpecifiedPart;
    CompareTwo(Bit(x & m != 0), Bit(x & n != 0), Bit(o & m != 0), Bit(o & n != 0));
    SpecifiedPartIsByBit(x, o, m);
    SpecifiedPartIsByBit(x, o, n);
  }

  lemma SpecificsDecide1(x: nat, o: nat)
    ensures Compare([Bit(x != 0)], [Bit(o != 0)]) == Specified(x, o)
  {
    CompareOne(Bit(x != 0), Bit(o != 0));
    SpecifiedIsByBit(x, o);
  }

  lemma SpecificsDecideInput(c: Config, o: Config)
    ensures Compare(InputSpecifics(c), InputSpecifics(o)) == InputSpecified(c, o)
  {
    hide Compare, By, Bit, Specified, SpecifiedPart, InputSpecified;
    GuardsDoNotMatter(c, o);
    var m, n := MASK_KEYSHIDDEN, MASK_NAVHIDDEN;
    CompareFour(Bit(c.inputFlags & m != 0), Bit(c.inputFlags & n != 0), Bit(c.keyboard != 0), Bit(c.navigation != 0),
                Bit(o.inputFlags & m != 0), Bit(o.inputFlags & n != 0), Bit(o.keyboard != 0), Bit(o.navigation != 0));
    SpecifiedPartIsByBit(c.inputFlags, o.inputFlags, m);
    SpecifiedPartIsByBit(c.inputFlags, o.inputFlags, n);
    SpecifiedIsByBit(c.keyboard, o.keyboard);
    SpecifiedIsByBit(c.navigation, o.navigation);
  }

  lemma NumbersDecide(c: Config, o: Config)
    ensures Compare(ImsiSpecifics(c), ImsiSpecifics(o)) == ImsiSpecified(c, o)
    ensures Compare(LocaleSpecifics(c), LocaleSpecifics(o)) == LocaleSpecified(c, o)
    ensures Compare(SizeSpecifics(c), SizeSpecifics(o)) == SizeSpecified(c, o)
    ensures Compare(VersionSpecifics(c), VersionSpecifics(o)) == VersionSpecified(c, o)
  {
    hide Compare, By, Bit, Specified, SpecifiedPart, ImsiSpecified, LocaleSpecified, SizeSpecified, VersionSpecified;
    GuardsDoNotMatter(c, o);
    SpecificsDecide2(c.mcc, c.mnc, o.mcc, o.mnc);
    SpecificsDecide2(c.language0, c.country0, o.language0, o.country0);
    SpecificsDecide2(c.screenWidth, c.screenHeight, o.screenWidth, o.screenHeight);
    SpecificsDecide2(c.sdkVersion, c.minorVersion, o.sdkVersion, o.minorVersion);
  }

  lemma PartsDecide(c: Config, o: Config)
    ensures Compare(LayoutSpecifics(c), LayoutSpecifics(o)) == LayoutSpecified(c, o)
    ensures Compare(ModeSpecifics(c), ModeSpecifics(o)) == ModeSpecified(c, o)
  {
    hide Compare, By, Bit, Part, Specified, SpecifiedPart, LayoutSpecified, ModeSpecified;
    GuardsDoNotMatter(c, o);
    SpecificsDecideParts(c.screenLayout, o.screenLayout, MASK_SCREENSIZE, MASK_SCREENLONG);
    SpecificsDecideParts(c.uiMode, o.uiMode, MASK_UI_MODE_TYPE, MASK_UI_MODE_NIGHT);
  }

  lemma GroupsDecide(c: Config, o: Config)
    ensures Compare(ImsiSpecifics(c), ImsiSpecifics(o)) == ImsiSpecified(c, o)
    ensures Compare(LocaleSpecifics(c), LocaleSpecifics(o)) == LocaleSpecified(c, o)
    ensures Compare(LayoutSpecifics(c), LayoutSpecifics(o)) == LayoutSpecified(c, o)
    ensures Compare(ModeSpecifics(c), ModeSpecifics(o)) == ModeSpecified(c, o)
    ensures Compare(SizeSpecifics(c), SizeSpecifics(o)) == SizeSpecified(c, o)
    ensures Compare(VersionSpecifics(c), VersionSpecifics(o)) == VersionSpecified(c, o)
  {
    hide *;
    NumbersDecide(c, o);
    PartsDecide(c, o);
  }

  /** The last groups of the vector, from the mode of the user interface on. */
  lemma LastSpecificsDecide(c: Config, o: Config)
    ensures Compare(LastSpecifics(c), LastSpecifics(o))
         == Then(ModeSpecified(c, o), Then(Specified(c.touchscreen, o.touchscreen), Then(InputSpecified(c, o),
            Then(SizeSpecified(c, o), VersionSpecified(c, o)))))
  {
    hide Compare, By, Bit, Specified, SpecifiedPart, ModeSpecified, InputSpecified, SizeSpecified, VersionSpecified,
      ModeSpecifics, InputSpecifics, SizeSpecifics, VersionSpecifics;
    SpecificsDecide1(c.touchscreen, o.touchscreen);
    SpecificsDecideInput(c, o);
    GroupsDecide(c, o);
    var t, u, v := SizeSpecifics(c) + VersionSpecifics(c), InputSpecifics(c), [Bit(c.touchscreen != 0)];
    var t', u', v' := SizeSpecifics(o) + VersionSpecifics(o), InputSpecifics(o), [Bit(o.touchscreen != 0)];
    CompareAppends(SizeSpecifics(c), SizeSpecifics(o), VersionSpecifics(c), VersionSpecifics(o));
    CompareAppends(u, u', t, t');
    CompareAppends(v, v', u + t, u' + t');
    CompareAppends(ModeSpecifics(c), ModeSpecifics(o), v + (u + t), v' + (u' + t'));
  }

  /** The vector of what is specified decides. */
  lemma SpecificVerdictIsLexicographic(c: Config, o: Config)
    ensures SpecificVerdict(c, o) == Compare(Specifics(c), Specifics(o))
  {
    hide Compare, By, Bit, Specified, SpecifiedPart, ImsiSpecified, LocaleSpecified, LayoutSpecified, LastSpecifics,
      ImsiSpecifics, LocaleSpecifics, LayoutSpecifics;
    GroupsDecide(c, o);
    SpecificsDecide1(c.orientation, o.orientation);
    LastSpecificsDecide(c, o);
    var t, u, v := LastSpecifics(c), [Bit(c.orientation != 0)], LayoutSpecifics(c);
    var t', u', v' := LastSpecifics(o), [Bit(o.orientation != 0)], LayoutSpecifics(o);
    CompareAppends(u, u', t, t');
    CompareAppends(v, v', u + t, u' + t');
    CompareAppends(LocaleSpecifics(c), LocaleSpecifics(o), v + (u + t), v' + (u' + t'));
    CompareAppends(ImsiSpecifics(c), ImsiSpecifics(o), LocaleSpecifics(c) + (v + (u + t)),
                   LocaleSpecifics(o) + (v' + (u' + t')));
  }

  /** Being more specific is having the greater vector. */
  lemma MoreSpecificIff(c: Config, o: Config)
    ensures IsMoreSpecificThan(c, o) <==> Compare(Specifics(c), Specifics(o)) == Better
  {
    hide SpecificVerdict, Specifics, Compare;
    SpecificVerdictIsLexicographic(c, o);
  }

  /** Without a request, the better of two is the one with the greater vector. */
  lemma UnrequestedIff(c: Config, o: Config)
    ensures IsBetterThan(c, o, NoRequest) <==> Compare(Specifics(c), Specifics(o)) == Better
  {
    hide IsMoreSpecificThan, Specifics, Compare;
    MoreSpecificIff(c, o);
  }

  /** Which is a strict weak order on all configurations. */
  lemma UnrequestedIsAStrictWeakOrder(c: Config, d: Config, e: Config)
    ensures !IsBetterThan(c, c, NoRequest)
    ensures IsBetterThan(c, d, NoRequest) ==> !IsBetterThan(d, c, NoRequest)
    ensures IsBetterThan(c, d, NoRequest) && IsBetterThan(d, e, NoRequest) ==> IsBetterThan(c, e, NoRequest)
    ensures !IsBetterThan(c, d, NoRequest) && !IsBetterThan(d, e, NoRequest) ==> !IsBetterThan(c, e, NoRequest)
  {
    hide IsBetterThan, Specifics, Compare;
    UnrequestedIff(c, c);
    UnrequestedIff(c, d);
    UnrequestedIff(d, c);
    UnrequestedIff(d, e);
    UnrequestedIff(c, e);
    CompareFlips(Specifics(c), Specifics(c));
    CompareFlips(Specifics(c), Specifics(d));
    CompareComposes(Specifics(c), Specifics(d), Specifics(e));
  }

  /** Being more specific is a strict weak order on all configurations. */
  lemma MoreSpecificIsAStrictWeakOrder(c: Config, d: Config, e: Config)
    ensures !IsMoreSpecificThan(c, c)
    ensures IsMoreSpecificThan(c, d) ==> !IsMoreSpecificThan(d, c)
    ensures IsMoreSpecificThan(c, d) && IsMoreSpecificThan(d, e) ==> IsMoreSpecificThan(c, e)
    ensures !IsMoreSpecificThan(c, d) && !IsMoreSpecificThan(d, e) ==> !IsMoreSpecificThan(c, e)
  {
    hide SpecificVerdict, Specifics, Compare;
    SpecificVerdictIsLexicographic(c, c);
    SpecificVerdictIsLexicographic(c, d);
    SpecificVerdictIsLexicographic(d, c);
    SpecificVerdictIsLexicographic(d, e);
    SpecificVerdictIsLexicographic(c, e);
    CompareFlips(Specifics(c), Specifics(c));
    CompareFlips(Specifics(c), Specifics(d));
    CompareComposes(Specifics(c), Specifics(d), Specifics(e));
  }

  // ----- match, attribute by attribute -----

  /** An attribute suits a request if it is not set, if nothing is requested, or if it is what is requested. */
  predicate Suits(x: nat, requested: nat) { x == 0 || requested == 0 || x == requested }

  /** What match promises of each attribute, without the guards. */
  predicate SuitsAll(c: Config, r: Config) {
    && (c.mcc == 0 || c.mcc == r.mcc) && (c.mnc == 0 || c.mnc == r.mnc)
    && (Suits(c.language0, r.language0) && (c.language0 != 0 && r.language0 != 0 ==> c.language1 == r.language1))
    && (Suits(c.country0, r.country0) && (c.country0 != 0 && r.country0 != 0 ==> c.country1 == r.country1))
    && Part(c.screenLayout, MASK_SCREENSIZE) <= Part(r.screenLayout, MASK_SCREENSIZE)
    && Suits(Part(c.screenLayout, MASK_SCREENLONG), Part(r.screenLayout, MASK_SCREENLONG))
    && Suits(Part(c.uiMode, MASK_UI_MODE_TYPE), Part(r.uiMode, MASK_UI_MODE_TYPE))
    && Suits(Part(c.uiMode, MASK_UI_MODE_NIGHT), Part(r.uiMode, MASK_UI_MODE_NIGHT))
    && Suits(c.orientation, r.orientation) && Suits(c.touchscreen, r.touchscreen)
    && (Suits(Part(c.inputFlags, MASK_KEYSHIDDEN), Part(r.inputFlags, MASK_KEYSHIDDEN))
        || (Part(c.inputFlags, MASK_KEYSHIDDEN) == 1 && Part(r.inputFlags, MASK_KEYSHIDDEN) == 3))
    && Suits(Part(c.inputFlags, MASK_NAVHIDDEN), Part(r.inputFlags, MASK_NAVHIDDEN))
    && Suits(c.keyboard, r.keyboard) && Suits(c.navigation, r.navigation)
    && Suits(c.screenWidth, r.screenWidth) && Suits(c.screenHeight, r.screenHeight)
    && (r.sdkVersion == 0 || c.sdkVersion <= r.sdkVersion) && Suits(c.minorVersion, r.minorVersion)
  }

  /** A part of a byte: what is left of it from a place on, below a size. */
  function Field(b: bv8, place: bv8, size: bv8): bv8
    requires place != 0 && size != 0
  {
    b / place % size
  }

  /** Where the attributes that share a byte are in it. */
  lemma FieldsAre(b: bv8)
    ensures b & MASK_SCREENSIZE == Field(b, 1, 16) && b & MASK_SCREENLONG == 16 * Field(b, 16, 4)
    ensures b & MASK_UI_MODE_TYPE == Field(b, 1, 16) && b & MASK_UI_MODE_NIGHT == 16 * Field(b, 16, 4)
    ensures b & MASK_KEYSHIDDEN == Field(b, 1, 4) && b & MASK_NAVHIDDEN == 4 * Field(b, 4, 4)
  {
  }

  lemma NoPartOfNothing()
    ensures Part(0, MASK_SCREENSIZE) == Part(0, MASK_SCREENLONG) == Part(0, MASK_UI_MODE_TYPE)
        == Part(0, MASK_UI_MODE_NIGHT)
         == Part(0, MASK_KEYSHIDDEN) == Part(0, MASK_NAVHIDDEN) == 0
  {
  }

  /** A configuration matches a request exactly if each of its attributes suits it. */
  lemma MatchIff(c: Config, r: Config)
    ensures Match(c, r) <==> SuitsAll(c, r)
  {
    NoPartOfNothing();
    hide Part;
  }
}
