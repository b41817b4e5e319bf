/** The string operations of the Java library that the modelled code relies on. */
module Strings {

  /** `Collectors.joining(sep)`: the elements in order, with `sep` between neighbours. */
  function Join(xs: seq<string>, sep: string): string
  {
    if |xs| == 0 then ""
    else if |xs| == 1 then xs[0]
    else xs[0] + sep + Join(xs[1..], sep)
  }

  /** The summed length of the elements. */
  function TotalLength(xs: seq<string>): nat
  {
    if xs == [] then 0 else |xs[0]| + TotalLength(xs[1..])
  }

  /**
   * `String.format` with `%s` conversions only: `template` is the text around the conversions,
   * `args` the values put in their place, in order; the text starts with the template's head and
   * ends with its tail.
   */
  function StringFormat(template: seq<string>, args: seq<string>): (r: string)
    requires |template| == |args| + 1
    ensures |r| == TotalLength(template) + TotalLength(args)
    ensures |template[0]| <= |r| && r[..|template[0]|] == template[0]
  {
    if args == [] then template[0]
    else
      var t, n := template[..|args|], |args| - 1;
      TotalLengthSnoc(t, template[|args|]);
      TotalLengthSnoc(args[..n], args[n]);
      assert t + [template[|args|]] == template && args[..n] + [args[n]] == args;
      StringFormat(t, args[..n]) + args[n] + template[|args|]
  }

  lemma {:induction false} TotalLengthSnoc(xs: seq<string>, x: string)
    ensures TotalLength(xs + [x]) == TotalLength(xs) + |x|
  {
    if xs != [] {
      assert (xs + [x])[1..] == xs[1..] + [x];
      TotalLengthSnoc(xs[1..], x);
    }
  }

  /** A template with two conversions, written out. */
  lemma StringFormat2(template: seq<string>, a: string, b: string)
    requires |template| == 3
    ensures StringFormat(template, [a, b]) == template[0] + a + template[1] + b + template[2]
  {
    var t2, t1 := template[..2], template[..1];
    assert [a, b][..1] == [a] && [a][..0] == [] && t2[..1] == t1;
    assert StringFormat(t1, []) == template[0];
    assert StringFormat(t2, [a]) == template[0] + a + template[1];
  }

  /** A template with four conversions, written out. */
  lemma StringFormat4(template: seq<string>, a: string, b: string, c: string, d: string)
    requires |template| == 5
    ensures StringFormat(template, [a, b, c, d]) == template[0] + a + template[1] + b + template[2] + c + template[3] + d + template[4]
  {
    var t4, t3, t2, t1 := template[..4], template[..3], template[..2], template[..1];
    assert [a, b, c, d][..3] == [a, b, c] && [a, b, c][..2] == [a, b] && [a, b][..1] == [a] && [a][..0] == [];
    assert t4[..3] == t3 && t3[..2] == t2 && t2[..1] == t1;
    assert StringFormat(t1, []) == template[0];
    assert StringFormat(t2, [a]) == template[0] + a + template[1];
    assert StringFormat(t3, [a, b]) == template[0] + a + template[1] + b + template[2];
    assert StringFormat(t4, [a, b, c]) == template[0] + a + template[1] + b + template[2] + c + template[3];
  }

  /** A joined string is the elements' characters plus one separator per gap. */
  lemma {:induction false} JoinLength(xs: seq<string>, sep: string)
    requires xs != []
    ensures |Join(xs, sep)| == TotalLength(xs) + (|xs| - 1) * |sep|
  {
    if |xs| > 1 {
      JoinLength(xs[1..], sep);
    }
  }

  /** Joining a longer list appends the separator and the new last element. */
  lemma {:induction false} JoinSnoc(xs: seq<string>, x: string, sep: string)
    requires xs != []
    ensures Join(xs + [x], sep) == Join(xs, sep) + sep + x
  {
    if |xs| == 1 {
      assert (xs + [x])[1..] == [x];
    } else {
      assert (xs + [x])[1..] == xs[1..] + [x];
      JoinSnoc(xs[1..], x, sep);
    }
  }

  /** A join of non-empty elements is empty only for no elements. */
  lemma {:induction false} JoinEmptyIff(xs: seq<string>, sep: string)
    requires forall i :: 0 <= i < |xs| ==> xs[i] != ""
    ensures Join(xs, sep) == "" <==> xs == []
  {
    if |xs| > 0 {
      assert |Join(xs, sep)| >= |xs[0]| by {
        if |xs| > 1 {
          assert Join(xs, sep) == xs[0] + sep + Join(xs[1..], sep);
        }
      }
    }
  }

  function UpperAscii(c: char): char
  {
    if 'a' <= c <= 'z' then (c as int - 'a' as int + 'A' as int) as char else c
  }

  function LowerAscii(c: char): char
  {
    if 'A' <= c <= 'Z' then (c as int - 'A' as int + 'a' as int) as char else c
  }

  /** `String.toUpperCase()` restricted to ASCII letters: every character is mapped on its own. */
  function ToUpperAscii(s: string): (r: string)
    ensures |r| == |s|
    ensures forall i :: 0 <= i < |s| ==> r[i] == UpperAscii(s[i])
  {
    if s == [] then [] else [UpperAscii(s[0])] + ToUpperAscii(s[1..])
  }

  /** No lower-case ASCII letter occurs in `s`. */
  predicate IsUpperCase(s: string)
  {
    forall i :: 0 <= i < |s| ==> !('a' <= s[i] <= 'z')
  }

  /** `s` spells `name` up to the letter case of its ASCII letters. */
  predicate CaseVariantOf(s: string, name: string)
  {
    |s| == |name| && forall i :: 0 <= i < |s| ==> s[i] == name[i] || s[i] == LowerAscii(name[i])
  }

  /** Upper-casing any letter-case variant of an upper-case word gives back the word. */
  lemma UpperOfCaseVariant(s: string, name: string)
    requires IsUpperCase(name)
    requires CaseVariantOf(s, name)
    ensures ToUpperAscii(s) == name
  {
    forall i | 0 <= i < |s|
      ensures ToUpperAscii(s)[i] == name[i]
    {
      if s[i] != name[i] {
        assert 'A' <= name[i] <= 'Z';
      }
    }
  }
}
