/** The closed set of tones a document can be classified into, its name list and its parser. */
module StylisticTones {
  import opened Wrappers
  import opened Strings

  datatype StylisticTone = CASUAL | FORMAL | GRANDILOQUENT

  /** `Enum.name()`: the constant's identifier. */
  function Name(t: StylisticTone): string
  {
    match t
    case CASUAL => "CASUAL"
    case FORMAL => "FORMAL"
    case GRANDILOQUENT => "GRANDILOQUENT"
  }

  /** `values()`: every constant, in declaration order. */
  function Values(): seq<StylisticTone>
  {
    [CASUAL, FORMAL, GRANDILOQUENT]
  }

  /** The enumeration is closed: every constant is listed by `values()`. */
  lemma AllInValues()
    ensures forall t :: t in Values()
  {
    forall t ensures t in Values() {
      match t
      case CASUAL => assert Values()[0] == t;
      case FORMAL => assert Values()[1] == t;
      case GRANDILOQUENT => assert Values()[2] == t;
    }
  }

  function Names(ts: seq<StylisticTone>): (ns: seq<string>)
    ensures |ns| == |ts|
    ensures forall i :: 0 <= i < |ts| ==> ns[i] == Name(ts[i])
  {
    if ts == [] then [] else [Name(ts[0])] + Names(ts[1..])
  }

  /** The constants' names in declaration order, separated by ", ". */
  function ToCommaSeparatedString(): (r: string)
    ensures r == "CASUAL, FORMAL, GRANDILOQUENT"
  {
    Join(Names(Values()), ", ")
  }

  /** A constant of `ts` whose name is exactly `name`, if there is one. */
  function Lookup(ts: seq<StylisticTone>, name: string): (r: Option<StylisticTone>)
    ensures r.Some? ==> r.value in ts && Name(r.value) == name
    ensures r.None? ==> forall t :: t in ts ==> Name(t) != name
  {
    if ts == [] then None
    else if Name(ts[0]) == name then Some(ts[0])
    else Lookup(ts[1..], name)
  }

  /** `valueOf(name)`: the constant with exactly this name, if any. */
  function ValueOf(name: string): (r: Option<StylisticTone>)
    ensures r.Some? <==> exists t :: Name(t) == name
    ensures r.Some? ==> Name(r.value) == name
  {
    AllInValues();
    Lookup(Values(), name)
  }

  const NullToneMessage := "Tone string cannot be null"

  function InvalidToneMessage(toneString: string): string
  {
    "Invalid tone: '" + toneString + "'. None of the values: '" + ToCommaSeparatedString() + "' were matched"
  }

  /** `fromString`: null is refused, otherwise the upper-cased input must be a constant's exact name. */
  function FromString(toneString: Option<string>): (r: Result<StylisticTone, Exception>)
    ensures toneString.None? ==> r == Failure(IllegalArgumentException(NullToneMessage))
    ensures toneString.Some? ==>
      (r.Success? <==> exists t :: Name(t) == ToUpperAscii(toneString.value))
    ensures toneString.Some? && r.Success? ==> Name(r.value) == ToUpperAscii(toneString.value)
    ensures toneString.Some? && r.Failure? ==>
      r.error == IllegalArgumentException(
        "Invalid tone: '" + toneString.value + "'. None of the values: '" + "CASUAL, FORMAL, GRANDILOQUENT" + "' were matched")
  {
    match toneString
    case None => Failure(IllegalArgumentException(NullToneMessage))
    case Some(s) =>
      match ValueOf(ToUpperAscii(s))
      case Some(t) => Success(t)
      case None => Failure(IllegalArgumentException(InvalidToneMessage(s)))
  }

  /** Distinct constants have distinct names. */
  lemma NameInjective(t1: StylisticTone, t2: StylisticTone)
    requires Name(t1) == Name(t2)
    ensures t1 == t2
  {
    match t1 {
      case CASUAL => assert Name(t2)[0] == 'C';
      case FORMAL => assert Name(t2)[0] == 'F';
      case GRANDILOQUENT => assert Name(t2)[0] == 'G';
    }
  }

  lemma NameIsUpperCase(t: StylisticTone)
    ensures IsUpperCase(Name(t))
  {
  }

  /** Parsing a constant's name, in any letter case, gives back that constant. */
  lemma FromStringCaseVariant(t: StylisticTone, s: string)
    requires CaseVariantOf(s, Name(t))
    ensures FromString(Some(s)) == Success(t)
  {
    NameIsUpperCase(t);
    UpperOfCaseVariant(s, Name(t));
    var r := FromString(Some(s));
    NameInjective(r.value, t);
  }

  /** Round trip: `fromString(t.name())` is `t`. */
  lemma FromStringName(t: StylisticTone)
    ensures FromString(Some(Name(t))) == Success(t)
  {
    FromStringCaseVariant(t, Name(t));
  }

  /** The input is not trimmed: surrounding white space makes it invalid. */
  lemma FromStringNoTrim(t: StylisticTone, s: string)
    requires s == " " + Name(t) || s == Name(t) + " "
    ensures FromString(Some(s)) == Failure(IllegalArgumentException(InvalidToneMessage(s)))
  {
    assert forall t' :: |Name(t')| != |ToUpperAscii(s)|;
  }

  /** The empty reply is refused with `''` as the raw value in the message. */
  lemma FromStringEmpty()
    ensures FromString(Some("")) == Failure(IllegalArgumentException(
      "Invalid tone: ''. None of the values: '" + ToCommaSeparatedString() + "' were matched"))
  {
    assert forall t :: Name(t) != ToUpperAscii("") by {
      assert ToUpperAscii("") == "";
    }
    EmptyMessageHead();
  }

  lemma EmptyMessageHead()
    ensures "Invalid tone: '" + "" + "'. None of the values: '" == "Invalid tone: ''. None of the values: '"
  {
    assert "Invalid tone: '" + "" == "Invalid tone: '";
  }
}
