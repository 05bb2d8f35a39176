/** Non-relational invariant values: a symbolic expression ("sx"), a ground
    interval ("iv") and a symbolic base with an offset range ("bv"); their
    bounds, predicates and text. */
module NonRelationalValue {
  import opened Base

  /** An invariant dictionary record: tags[0] names the variant. */
  datatype Nrv = Nrv(tags: seq<string>, args: seq<int>)

  /** The lookups into the expression dictionary: the text of the expression
      at an index, the value of the numerical at an index, and the text of
      the symbol at an index. */
  datatype XprDictionary = XprDictionary(xpr: int -> string, numerical: int -> int, symbol: int -> string)

  /** The shapes of non_relational_value_t. */
  predicate WellFormed(v: Nrv)
  {
    |v.tags| == 1 &&
    match v.tags[0]
    case "sx" => |v.args| == 1
    case "iv" => |v.args| == 2
    case "bv" => |v.args| == 4
    case _ => false
  }

  /** A bound, given by an arg: -1 for an absent bound, otherwise the index
      of the numerical that holds it. */
  function Bound(d: XprDictionary, ix: int): (b: Option<int>)
    ensures b.None? <==> ix == -1
    ensures b.Some? ==> b.value == d.numerical(ix)
  {
    if ix == -1 then None else Some(d.numerical(ix))
  }

  /** A lower and an upper bound, each optional. */
  datatype Bounds = Bounds(lb: Option<int>, ub: Option<int>)

  /** The bounds of an interval: args[0] and args[1]. */
  function IntervalBounds(v: Nrv, d: XprDictionary): (b: Bounds)
    requires WellFormed(v) && v.tags[0] == "iv"
    ensures b.lb.None? <==> v.args[0] == -1
    ensures b.ub.None? <==> v.args[1] == -1
  {
    Bounds(Bound(d, v.args[0]), Bound(d, v.args[1]))
  }

  /** The bounds of a base-offset value: args[1] and args[2]. */
  function BaseOffsetBounds(v: Nrv, d: XprDictionary): (b: Bounds)
    requires WellFormed(v) && v.tags[0] == "bv"
    ensures b.lb.None? <==> v.args[1] == -1
    ensures b.ub.None? <==> v.args[2] == -1
  {
    Bounds(Bound(d, v.args[1]), Bound(d, v.args[2]))
  }

  /** The base of a base-offset value: the symbol at args[0]. */
  function BaseSymbol(v: Nrv, d: XprDictionary): string
    requires WellFormed(v) && v.tags[0] == "bv"
  {
    d.symbol(v.args[0])
  }

  predicate IsLowerBounded(b: Bounds)
  {
    b.lb.Some?
  }

  predicate IsUpperBounded(b: Bounds)
  {
    b.ub.Some?
  }

  predicate IsBounded(b: Bounds)
  {
    b.lb.Some? && b.ub.Some?
  }

  predicate IsSingleton(b: Bounds)
  {
    IsBounded(b) && b.lb == b.ub
  }

  /** The predicates nest: a singleton is bounded, and a bounded value is
      bounded on both sides; bounded is exactly both sides bounded. */
  lemma PredicatesNest(b: Bounds)
    ensures IsSingleton(b) ==> IsBounded(b)
    ensures IsBounded(b) <==> IsLowerBounded(b) && IsUpperBounded(b)
    ensures IsSingleton(b) <==> b.lb.Some? && b.ub == b.lb
  {
  }

  // ---------------------------------------------------------------------------
  // Text
  // ---------------------------------------------------------------------------

  /** The bracket forms shared by intervals and base-offset values, for a
      value that is not a singleton: "[lb;ub]", "[lb; ->", "<- ; ub]",
      "<- ; ->". */
  function RangeText(b: Bounds): string
  {
    if IsBounded(b) then "[" + Str(b.lb.value) + ";" + Str(b.ub.value) + "]"
    else if IsLowerBounded(b) then "[" + Str(b.lb.value) + "; ->"
    else if IsUpperBounded(b) then "<- ; " + Str(b.ub.value) + "]"
    else "<- ; ->"
  }

  /** str of an interval: a singleton in hex, otherwise a bracket form. */
  function IntervalText(b: Bounds): string
  {
    if IsSingleton(b) then Hex(b.lb.value) else RangeText(b)
  }

  /** str of a base-offset value: the base alone for offset zero, "base +
      lb" for another single offset, and otherwise the base followed by the
      bracket form. */
  function BaseOffsetText(base: string, b: Bounds): string
  {
    if IsSingleton(b) && b.lb.value == 0 then base
    else if IsSingleton(b) then base + " + " + Str(b.lb.value)
    else base + RangeText(b)
  }

  /** str of any non-relational value; every well-formed record has a
      variant of its own, so the generic class's "nrv:" text is never
      reached. */
  function Text(v: Nrv, d: XprDictionary): (s: string)
    requires WellFormed(v)
    ensures v.tags[0] == "sx" ==> s == d.xpr(v.args[0])
    ensures v.tags[0] == "iv" ==> s == IntervalText(IntervalBounds(v, d))
    ensures v.tags[0] == "bv" ==> s == BaseOffsetText(BaseSymbol(v, d), BaseOffsetBounds(v, d))
  {
    match v.tags[0]
    case "sx" => d.xpr(v.args[0])
    case "iv" => IntervalText(IntervalBounds(v, d))
    case "bv" => BaseOffsetText(BaseSymbol(v, d), BaseOffsetBounds(v, d))
    case _ => assert false; ""
  }

  // ---------------------------------------------------------------------------
  // Reading the text back
  // ---------------------------------------------------------------------------

  /** Reads "lb;ub", the inside of a bounded form. */
  function ParseBoth(inner: string): Option<Bounds>
  {
    var parts := Split(inner, ';');
    if |parts| != 2 then None
    else
      match (ParseDecimal(parts[0]), ParseDecimal(parts[1]))
      case (Some(lb), Some(ub)) => Some(Bounds(Some(lb), Some(ub)))
      case _ => None
  }

  /** Reads a bracket form back into its bounds. */
  function ParseRange(s: string): Option<Bounds>
  {
    if s == "<- ; ->" then Some(Bounds(None, None))
    else if |s| >= 6 && s[..5] == "<- ; " && s[|s| - 1] == ']' then
      match ParseDecimal(s[5..|s| - 1])
      case Some(ub) => Some(Bounds(None, Some(ub)))
      case None => None
    else if |s| >= 5 && s[0] == '[' && s[|s| - 4..] == "; ->" then
      match ParseDecimal(s[1..|s| - 4])
      case Some(lb) => Some(Bounds(Some(lb), None))
      case None => None
    else if |s| >= 2 && s[0] == '[' && s[|s| - 1] == ']' then
      ParseBoth(s[1..|s| - 1])
    else None
  }

  /** Reads an interval's text back into its bounds. */
  function ParseInterval(s: string): Option<Bounds>
  {
    if |s| > 0 && (s[0] == '[' || s[0] == '<') then ParseRange(s)
    else
      match ParseHex(s)
      case Some(v) => Some(Bounds(Some(v), Some(v)))
      case None => None
  }

  /** Reads a base-offset value's text back into its bounds, given the
      base. */
  function ParseBaseOffset(base: string, s: string): Option<Bounds>
  {
    if |s| < |base| || s[..|base|] != base then None
    else
      var rest := s[|base|..];
      if rest == "" then Some(Bounds(Some(0), Some(0)))
      else if |rest| >= 3 && rest[..3] == " + " then
        match ParseDecimal(rest[3..])
        case Some(v) => Some(Bounds(Some(v), Some(v)))
        case None => None
      else ParseRange(rest)
  }

  /** The two numbers of "lb;ub" are the two parts between the ';'. */
  lemma BoundsSplit(lb: int, ub: int)
    ensures Split(Str(lb) + ";" + Str(ub), ';') == [Str(lb), Str(ub)]
  {
    var l, u := Str(lb), Str(ub);
    StrChars(lb);
    StrChars(ub);
    assert ';' !in l && ';' !in u by {
      assert forall i :: 0 <= i < |l| ==> l[i] != ';';
      assert forall i :: 0 <= i < |u| ==> u[i] != ';';
    }
    SplitFirst(l, u, ';');
    SplitNoSeparator(u, ';');
  }

  /** A bracketed text reads as the "lb;ub" inside the brackets. */
  lemma BracketedParse(s: string)
    requires |s| >= 2 && s[0] == '[' && s[|s| - 1] == ']'
    ensures ParseRange(s) == ParseBoth(s[1..|s| - 1])
  {
    if |s| >= 5 {
      assert s[|s| - 4..][3] == ']';
    }
    if |s| >= 6 {
      assert s[..5][0] == '[';
    }
  }

  /** "[lb;ub]" reads back as both bounds. */
  lemma BoundedTextReadsBack(lb: int, ub: int)
    ensures ParseRange("[" + Str(lb) + ";" + Str(ub) + "]") == Some(Bounds(Some(lb), Some(ub)))
  {
    var inner := Str(lb) + ";" + Str(ub);
    var s := "[" + inner + "]";
    assert "[" + Str(lb) + ";" + Str(ub) + "]" == s;
    assert s[1..|s| - 1] == inner;
    BracketedParse(s);
    BoundsSplit(lb, ub);
    DecimalRoundTrip(lb);
    DecimalRoundTrip(ub);
  }

  /** "[lb; ->" reads back as a lower bound alone. */
  lemma LowerTextReadsBack(lb: int)
    ensures ParseRange("[" + Str(lb) + "; ->") == Some(Bounds(Some(lb), None))
  {
    var s := "[" + Str(lb) + "; ->";
    DecimalRoundTrip(lb);
    assert s[1..|s| - 4] == Str(lb);
    assert s[|s| - 4..] == "; ->";
    assert s[0] == '[';
    assert s != "<- ; ->" by {
      assert "<- ; ->"[0] == '<';
    }
    assert s[..5] != "<- ; " by {
      assert s[..5][0] == '[';
    }
  }

  /** "<- ; ub]" reads back as an upper bound alone. */
  lemma UpperTextReadsBack(ub: int)
    ensures ParseRange("<- ; " + Str(ub) + "]") == Some(Bounds(None, Some(ub)))
  {
    var s := "<- ; " + Str(ub) + "]";
    DecimalRoundTrip(ub);
    assert s[5..|s| - 1] == Str(ub);
    assert s[..5] == "<- ; ";
    assert s != "<- ; ->" by {
      assert s[|s| - 1] == ']';
    }
  }

  /** Every bracket form reads back as the bounds it shows, and starts with
      '[' or '<'. */
  lemma RangeTextReadsBack(b: Bounds)
    requires !IsSingleton(b)
    ensures ParseRange(RangeText(b)) == Some(b)
    ensures |RangeText(b)| > 0 && (RangeText(b)[0] == '[' || RangeText(b)[0] == '<')
  {
    if IsBounded(b) {
      BoundedTextReadsBack(b.lb.value, b.ub.value);
    } else if IsLowerBounded(b) {
      LowerTextReadsBack(b.lb.value);
    } else if IsUpperBounded(b) {
      UpperTextReadsBack(b.ub.value);
    }
  }

  /** An interval's text reads back as its bounds. */
  lemma IntervalTextReadsBack(b: Bounds)
    ensures ParseInterval(IntervalText(b)) == Some(b)
  {
    if IsSingleton(b) {
      var s := Hex(b.lb.value);
      HexRoundTrip(b.lb.value);
      assert s[0] == '-' || s[0] == '0';
    } else {
      RangeTextReadsBack(b);
    }
  }

  /** A base-offset value's text starts with the base and reads back as its
      bounds. */
  lemma BaseOffsetTextReadsBack(base: string, b: Bounds)
    ensures var s := BaseOffsetText(base, b);
            |s| >= |base| && s[..|base|] == base
    ensures ParseBaseOffset(base, BaseOffsetText(base, b)) == Some(b)
  {
    var s := BaseOffsetText(base, b);
    if IsSingleton(b) && b.lb.value == 0 {
      assert s == base + "";
      assert s[|base|..] == "";
    } else if IsSingleton(b) {
      SingleOffsetReadsBack(base, b.lb.value);
    } else {
      RangeOffsetReadsBack(base, b);
    }
  }

  /** "base + v" reads back as the single offset v. */
  lemma SingleOffsetReadsBack(base: string, v: int)
    ensures ParseBaseOffset(base, base + " + " + Str(v)) == Some(Bounds(Some(v), Some(v)))
  {
    var s := base + " + " + Str(v);
    assert s[..|base|] == base;
    assert s[|base|..] == " + " + Str(v);
    assert (" + " + Str(v))[3..] == Str(v);
    DecimalRoundTrip(v);
  }

  /** The base followed by a bracket form reads back as its bounds. */
  lemma RangeOffsetReadsBack(base: string, b: Bounds)
    requires !IsSingleton(b)
    ensures ParseBaseOffset(base, base + RangeText(b)) == Some(b)
  {
    var t := RangeText(b);
    var s := base + t;
    assert s[..|base|] == base;
    assert s[|base|..] == t;
    RangeTextReadsBack(b);
    assert !(|t| >= 3 && t[..3] == " + ") by {
      if |t| >= 3 {
        assert t[..3][0] == t[0];
      }
    }
  }

  /** Outside the singleton case a base-offset value's text is the base
      followed by exactly the interval's text. */
  lemma BaseOffsetPrefixesInterval(base: string, b: Bounds)
    requires !IsSingleton(b)
    ensures BaseOffsetText(base, b) == base + IntervalText(b)
  {
  }
}
