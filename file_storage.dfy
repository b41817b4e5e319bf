/** The storage file-name scheme: `getNormalizedFileName` of the file-system storage service. */
module FileStorage {
  import opened Wrappers

  /** The role of a stored document; its name becomes part of the file name. */
  datatype FileCategory = TONE_SOURCE | ORIGINAL_TONE | ADJUSTED_TONE

  function CategoryName(c: FileCategory): (r: string)
    ensures '.' !in r && ' ' !in r
  {
    match c
    case TONE_SOURCE => "TONE_SOURCE"
    case ORIGINAL_TONE => "ORIGINAL_TONE"
    case ADJUSTED_TONE => "ADJUSTED_TONE"
  }

  /** `s.replace(" ", "_")`: every space becomes an underscore, nothing else moves. */
  function ReplaceSpaces(s: string): (r: string)
    ensures |r| == |s|
    ensures forall i :: 0 <= i < |s| ==> r[i] == if s[i] == ' ' then '_' else s[i]
  {
    if s == [] then [] else [if s[0] == ' ' then '_' else s[0]] + ReplaceSpaces(s[1..])
  }

  /** `s.lastIndexOf(c)`: the position of the last `c`, or -1 when there is none. */
  function LastIndexOf(s: string, c: char): (r: int)
    ensures -1 <= r < |s|
    ensures r == -1 <==> c !in s
    ensures r >= 0 ==> s[r] == c && forall j :: r < j < |s| ==> s[j] != c
  {
    if s == [] then -1
    else if s[|s| - 1] == c then |s| - 1
    else LastIndexOf(s[..|s| - 1], c)
  }

  const NullArgumentMessage := "fileName and fileType cannot be null"

  /**
   * The stored name of a file: spaces become underscores and "-" plus the category's name is
   * inserted before the extension that starts at the last dot, or appended when there is no dot.
   */
  function GetNormalizedFileName(fileName: Option<string>, fileType: Option<FileCategory>): (r: Result<string, Exception>)
    ensures r.Failure? <==> fileName.None? || fileType.None?
    ensures r.Failure? ==> r.error == IllegalArgumentException("fileName and fileType cannot be null")
  {
    if fileName.None? || fileType.None? then
      Failure(IllegalArgumentException(NullArgumentMessage))
    else
      var normalizedFileName := ReplaceSpaces(fileName.value);
      var dotIndex := LastIndexOf(normalizedFileName, '.');
      if dotIndex != -1 then
        var namePart := normalizedFileName[..dotIndex];
        var extensionPart := normalizedFileName[dotIndex..];
        Success(namePart + "-" + CategoryName(fileType.value) + extensionPart)
      else
        Success(normalizedFileName + "-" + CategoryName(fileType.value))
  }

  /** The normalised name has no space and is one character plus the category name longer. */
  lemma NormalizedNameShape(fileName: string, c: FileCategory)
    ensures GetNormalizedFileName(Some(fileName), Some(c)).Success?
    ensures var r := GetNormalizedFileName(Some(fileName), Some(c)).value;
      ' ' !in r && |r| == |fileName| + 1 + |CategoryName(c)|
  {
    var r := GetNormalizedFileName(Some(fileName), Some(c)).value;
    var s := ReplaceSpaces(fileName);
    var name := CategoryName(c);
    var d := LastIndexOf(s, '.');
    assert ' ' !in s by {
      forall i | 0 <= i < |s| ensures s[i] != ' ' {
      }
    }
    if d == -1 {
      assert r == s + "-" + name;
    } else {
      assert r == s[..d] + "-" + name + s[d..];
      assert ' ' !in s[..d] && ' ' !in s[d..] by {
        assert s == s[..d] + s[d..];
      }
    }
  }

  /** Without a dot the category is appended to the input with its spaces replaced. */
  lemma NormalizedNameWithoutDot(fileName: string, c: FileCategory)
    requires '.' !in fileName
    ensures GetNormalizedFileName(Some(fileName), Some(c)) == Success(ReplaceSpaces(fileName) + "-" + CategoryName(c))
  {
    var s := ReplaceSpaces(fileName);
    assert '.' !in s by {
      forall i | 0 <= i < |s| ensures s[i] != '.' {
        assert fileName[i] != '.';
      }
    }
  }

  /** The suffix of `s` from its last dot, or "" when it has none. */
  function Extension(s: string): (r: string)
    ensures r == "" || (r[0] == '.' && '.' !in r[1..])
  {
    var d := LastIndexOf(s, '.');
    if d == -1 then "" else s[d..]
  }

  /** `s` without its extension. */
  function BaseName(s: string): (r: string)
    ensures r + Extension(s) == s
  {
    var d := LastIndexOf(s, '.');
    if d == -1 then s else s[..d]
  }

  /** A position that holds `c` with no `c` after it is the last index of `c`. */
  lemma {:induction false} LastIndexOfAt(s: string, c: char, k: int)
    requires 0 <= k < |s| && s[k] == c
    requires forall j :: k < j < |s| ==> s[j] != c
    ensures LastIndexOf(s, c) == k
    decreases |s|
  {
    if k < |s| - 1 {
      LastIndexOfAt(s[..|s| - 1], c, k);
    }
  }

  /** Replacing spaces moves no dot. */
  lemma {:induction false} LastDotOfReplaced(s: string)
    ensures LastIndexOf(ReplaceSpaces(s), '.') == LastIndexOf(s, '.')
  {
    var r := ReplaceSpaces(s);
    var d := LastIndexOf(s, '.');
    if d == -1 {
      assert '.' !in r by {
        forall i | 0 <= i < |r| ensures r[i] != '.' {
          assert s[i] != '.';
        }
      }
    } else {
      LastIndexOfAt(r, '.', d);
    }
  }

  lemma {:induction false} ReplaceSpacesSplit(s: string, d: nat)
    requires d <= |s|
    ensures ReplaceSpaces(s)[..d] == ReplaceSpaces(s[..d])
    ensures ReplaceSpaces(s)[d..] == ReplaceSpaces(s[d..])
  {
    var r, p, q := ReplaceSpaces(s), ReplaceSpaces(s[..d]), ReplaceSpaces(s[d..]);
    forall i | 0 <= i < d ensures r[..d][i] == p[i] {
      assert s[..d][i] == s[i];
    }
    forall i | 0 <= i < |s| - d ensures r[d..][i] == q[i] {
      assert s[d..][i] == s[d + i];
    }
  }

  /** A dash and a name without a dot inserted right before the last dot leave that dot the last one. */
  lemma {:induction false} InsertBeforeLastDot(s: string, d: nat, name: string)
    requires LastIndexOf(s, '.') == d
    requires '.' !in name
    ensures var r := s[..d] + "-" + name + s[d..];
      LastIndexOf(r, '.') == d + 1 + |name| && r[..d + 1 + |name|] == s[..d] + "-" + name && r[d + 1 + |name|..] == s[d..]
  {
    var r := s[..d] + "-" + name + s[d..];
    var k := d + 1 + |name|;
    assert r[k] == s[d];
    forall j | k < j < |r| ensures r[j] != '.' {
      assert r[j] == s[j - 1 - |name|];
    }
    LastIndexOfAt(r, '.', k);
  }

  /**
   * The normalised name splits at its own last dot into the input's base name, with spaces
   * replaced, followed by "-" and the category, and then the input's extension, with spaces
   * replaced: the extension stays at the end.
   */
  lemma {:induction false} NormalizedNameParts(fileName: string, c: FileCategory)
    ensures GetNormalizedFileName(Some(fileName), Some(c)).Success?
    ensures var r := GetNormalizedFileName(Some(fileName), Some(c)).value;
      BaseName(r) == ReplaceSpaces(BaseName(fileName)) + "-" + CategoryName(c)
      && Extension(r) == ReplaceSpaces(Extension(fileName))
  {
    LastDotOfReplaced(fileName);
    if LastIndexOf(fileName, '.') == -1 {
      NormalizedPartsWithoutDot(fileName, c);
    } else {
      NormalizedPartsWithDot(fileName, c);
    }
  }

  lemma {:induction false} NormalizedPartsWithoutDot(fileName: string, c: FileCategory)
    requires LastIndexOf(fileName, '.') == -1
    ensures var r := GetNormalizedFileName(Some(fileName), Some(c)).value;
      BaseName(r) == ReplaceSpaces(fileName) + "-" + CategoryName(c) && Extension(r) == ""
  {
    var r := GetNormalizedFileName(Some(fileName), Some(c)).value;
    var s := ReplaceSpaces(fileName);
    var name := CategoryName(c);
    LastDotOfReplaced(fileName);
    assert r == s + "-" + name;
    assert '.' !in s;
    assert '.' !in r by {
      forall i | 0 <= i < |r| ensures r[i] != '.' {
        if i < |s| { assert r[i] == s[i]; } else { assert r[i] == ("-" + name)[i - |s|]; }
      }
    }
  }

  lemma {:induction false} NormalizedPartsWithDot(fileName: string, c: FileCategory)
    requires LastIndexOf(fileName, '.') != -1
    ensures var r := GetNormalizedFileName(Some(fileName), Some(c)).value;
      BaseName(r) == ReplaceSpaces(BaseName(fileName)) + "-" + CategoryName(c)
      && Extension(r) == ReplaceSpaces(Extension(fileName))
  {
    var r := GetNormalizedFileName(Some(fileName), Some(c)).value;
    var s := ReplaceSpaces(fileName);
    var name := CategoryName(c);
    var d := LastIndexOf(fileName, '.');
    LastDotOfReplaced(fileName);
    assert r == s[..d] + "-" + name + s[d..];
    InsertBeforeLastDot(s, d, name);
    ReplaceSpacesSplit(fileName, d);
    assert BaseName(fileName) == fileName[..d] && Extension(fileName) == fileName[d..];
  }

  // The sample name is a parameter fixed by `requires` rather than a literal argument: the
  // verifier unfolds recursive functions such as `ReplaceSpaces` eagerly on literal arguments,
  // which makes these proofs far more expensive.
  lemma NormalizedNameExample(fileName: string, c: FileCategory)
    requires fileName == "Sample Document"
    ensures GetNormalizedFileName(Some(fileName), Some(c)) == Success("Sample_Document-" + CategoryName(c))
  {
    assert '.' !in fileName;
    assert ReplaceSpaces(fileName) == "Sample_Document";
    assert "Sample_Document" + "-" == "Sample_Document-";
    NormalizedNameWithoutDot(fileName, c);
  }

  lemma SampleDocumentNames()
    ensures "Sample_Document-" + CategoryName(TONE_SOURCE) == "Sample_Document-TONE_SOURCE"
    ensures "Sample_Document-" + CategoryName(ORIGINAL_TONE) == "Sample_Document-ORIGINAL_TONE"
    ensures "Sample_Document-" + CategoryName(ADJUSTED_TONE) == "Sample_Document-ADJUSTED_TONE"
  {
  }

  /** A name without a dot gets the category appended: "Sample Document" in each category. */
  lemma NormalizedNameToneSource(fileName: string)
    requires fileName == "Sample Document"
    ensures GetNormalizedFileName(Some(fileName), Some(TONE_SOURCE)) == Success("Sample_Document-TONE_SOURCE")
  {
    NormalizedNameExample(fileName, TONE_SOURCE);
    SampleDocumentNames();
  }

  lemma NormalizedNameOriginalTone(fileName: string)
    requires fileName == "Sample Document"
    ensures GetNormalizedFileName(Some(fileName), Some(ORIGINAL_TONE)) == Success("Sample_Document-ORIGINAL_TONE")
  {
    NormalizedNameExample(fileName, ORIGINAL_TONE);
    SampleDocumentNames();
  }

  lemma NormalizedNameAdjustedTone(fileName: string)
    requires fileName == "Sample Document"
    ensures GetNormalizedFileName(Some(fileName), Some(ADJUSTED_TONE)) == Success("Sample_Document-ADJUSTED_TONE")
  {
    NormalizedNameExample(fileName, ADJUSTED_TONE);
    SampleDocumentNames();
  }

  /** Null arguments are refused with the fixed message. */
  lemma NormalizedNameNull(fileName: Option<string>, fileType: Option<FileCategory>)
    requires fileName.None? || fileType.None?
    ensures GetNormalizedFileName(fileName, fileType) == Failure(IllegalArgumentException(NullArgumentMessage))
  {
  }
}
