/**
 * AllcrudDisplayNameGenerator: JUnit display names from Java identifiers.
 * An underscore becomes " > ", and a space goes between a lower-case and
 * an upper-case letter, a letter and a digit, or a digit and a letter.
 */
module DisplayNames {
  import opened JavaStrings

  /** The number of occurrences of `c` in `s`. */
  function Count(s: string, c: char): nat
    decreases |s|
  {
    if |s| == 0 then 0 else (if s[0] == c then 1 else 0) + Count(s[1..], c)
  }

  /** What one character of the name becomes under replace("_", " > "). */
  function Piece(c: char): string {
    if c == '_' then " > " else [c]
  }

  /** name.replace("_", " > "). */
  function ReplaceUnderscores(s: string): (r: string)
    ensures forall i :: 0 <= i < |r| ==> r[i] != '_'
    ensures |s| > 0 ==> |r| > 0 && r[0] == (if s[0] == '_' then ' ' else s[0])
    decreases |s|
  {
    if |s| == 0 then [] else Piece(s[0]) + ReplaceUnderscores(s[1..])
  }

  /** Each underscore grows the name by two characters. */
  lemma {:induction false} ReplaceUnderscoresLength(s: string)
    ensures |ReplaceUnderscores(s)| == |s| + 2 * Count(s, '_')
    decreases |s|
  {
    if |s| > 0 {
      ReplaceUnderscoresLength(s[1..]);
    }
  }

  /** A name without underscores is left as it is. */
  lemma {:induction false} NoUnderscoresUnchanged(s: string)
    requires Count(s, '_') == 0
    ensures ReplaceUnderscores(s) == s
    decreases |s|
  {
    if |s| > 0 {
      NoUnderscoresUnchanged(s[1..]);
    }
  }

  /**
   * The zero-width matches of (?<=[a-z])(?=[A-Z]) | (?<=[a-zA-Z])(?=[0-9])
   * | (?<=[0-9])(?=[a-zA-Z]): the position between `a` and `b`.
   */
  predicate Boundary(a: char, b: char) {
    (IsLower(a) && IsUpper(b)) || (IsLetter(a) && IsDigit(b)) || (IsDigit(a) && IsLetter(b))
  }

  /** The number of positions of `s` at which the pattern matches. */
  function BoundaryCount(s: string): nat
    decreases |s|
  {
    if |s| <= 1 then 0 else (if Boundary(s[0], s[1]) then 1 else 0) + BoundaryCount(s[1..])
  }

  /**
   * replaceAll(pattern, " "): a space at every boundary position. The
   * lookarounds read the name, never an inserted space.
   */
  function InsertSpaces(s: string): (r: string)
    ensures |s| > 0 ==> |r| > 0 && r[0] == s[0]
    decreases |s|
  {
    if |s| <= 1 then s
    else [s[0]] + (if Boundary(s[0], s[1]) then " " else "") + InsertSpaces(s[1..])
  }

  /** The same replacement built from the right end: the name's prefix, then the space if due, then the last character. */
  function InsertSpacesFromEnd(s: string): string
    decreases |s|
  {
    if |s| <= 1 then s
    else InsertSpacesFromEnd(s[..|s| - 1]) + (if Boundary(s[|s| - 2], s[|s| - 1]) then " " else "") + [s[|s| - 1]]
  }

  /** Scanning from the left and building from the right give the same replacement. */
  lemma {:induction false} InsertSpacesAgree(s: string)
    ensures InsertSpaces(s) == InsertSpacesFromEnd(s)
    decreases |s|
  {
    if |s| > 2 {
      var n := |s|;
      var t := s[1..];
      InsertSpacesAgree(t);
      InsertSpacesAgree(s[..n - 1]);
      InsertSpacesAgree(t[..|t| - 1]);
      assert s[..n - 1][1..] == t[..|t| - 1];
      assert t[..|t| - 1] == s[1..n - 1];
      var sepFirst := if Boundary(s[0], s[1]) then " " else "";
      var sepLast := if Boundary(s[n - 2], s[n - 1]) then " " else "";
      calc {
        InsertSpaces(s);
        [s[0]] + sepFirst + InsertSpacesFromEnd(t);
        [s[0]] + sepFirst + (InsertSpacesFromEnd(t[..|t| - 1]) + sepLast + [s[n - 1]]);
        ([s[0]] + sepFirst + InsertSpaces(s[..n - 1][1..])) + sepLast + [s[n - 1]];
        InsertSpaces(s[..n - 1]) + sepLast + [s[n - 1]];
        InsertSpacesFromEnd(s);
      }
    } else if |s| == 2 {
      assert s[..1] == [s[0]];
    }
  }

  /** Exactly one character is inserted per boundary. */
  lemma {:induction false} InsertSpacesLength(s: string)
    ensures |InsertSpaces(s)| == |s| + BoundaryCount(s)
    decreases |s|
  {
    if |s| > 1 {
      InsertSpacesLength(s[1..]);
    }
  }

  /** `s` without its spaces. */
  function WithoutSpaces(s: string): (r: string)
    ensures forall i :: 0 <= i < |r| ==> r[i] != ' '
    decreases |s|
  {
    if |s| == 0 then [] else (if s[0] == ' ' then [] else [s[0]]) + WithoutSpaces(s[1..])
  }

  /** Only spaces are inserted: deleting every space undoes the replacement. */
  lemma {:induction false} InsertSpacesOnlyAddsSpaces(s: string)
    ensures WithoutSpaces(InsertSpaces(s)) == WithoutSpaces(s)
    decreases |s|
  {
    if |s| > 1 {
      InsertSpacesOnlyAddsSpaces(s[1..]);
      var rest := InsertSpaces(s[1..]);
      var r := InsertSpaces(s);
      var head := if s[0] == ' ' then [] else [s[0]];
      if Boundary(s[0], s[1]) {
        assert r[1..] == " " + rest && (" " + rest)[1..] == rest;
      } else {
        assert r[1..] == rest;
      }
    }
  }

  /** A name without boundaries is returned unchanged. */
  lemma {:induction false} NoBoundariesUnchanged(s: string)
    requires BoundaryCount(s) == 0
    ensures InsertSpaces(s) == s
    decreases |s|
  {
    if |s| > 1 {
      NoBoundariesUnchanged(s[1..]);
      assert [s[0]] + s[1..] == s;
    }
  }

  /** After the replacement no boundary is left: each one now has a space inside it. */
  lemma {:induction false} NoBoundariesRemain(s: string)
    ensures BoundaryCount(InsertSpaces(s)) == 0
    decreases |s|
  {
    if |s| > 1 {
      NoBoundariesRemain(s[1..]);
      var rest := InsertSpaces(s[1..]);
      var r := InsertSpaces(s);
      if Boundary(s[0], s[1]) {
        assert r == [s[0]] + ([' '] + rest);
        assert r[1..] == [' '] + rest;
        assert BoundaryCount(r[1..]) == BoundaryCount(rest);
      } else {
        assert r == [s[0]] + rest && r[1..] == rest;
      }
    }
  }

  /** Inserting the spaces a second time changes nothing. */
  lemma InsertSpacesIdempotent(s: string)
    ensures InsertSpaces(InsertSpaces(s)) == InsertSpaces(s)
  {
    NoBoundariesRemain(s);
    NoBoundariesUnchanged(InsertSpaces(s));
  }

  /** The boundaries of a concatenation: those of each part and possibly the one at the seam. */
  lemma {:induction false} BoundaryCountConcat(a: string, b: string)
    requires |a| > 0 && |b| > 0
    ensures BoundaryCount(a + b) == BoundaryCount(a) + BoundaryCount(b) + (if Boundary(a[|a| - 1], b[0]) then 1 else 0)
    decreases |a|
  {
    if |a| > 1 {
      assert (a + b)[1..] == a[1..] + b;
      BoundaryCountConcat(a[1..], b);
    } else {
      assert (a + b)[1..] == b;
    }
  }

  /** Replacing the underscores creates and removes no boundary: " > " holds neither letters nor digits. */
  lemma {:induction false} ReplacementKeepsBoundaries(s: string)
    ensures BoundaryCount(ReplaceUnderscores(s)) == BoundaryCount(s)
    decreases |s|
  {
    if |s| > 1 {
      ReplacementKeepsBoundaries(s[1..]);
      var rest := ReplaceUnderscores(s[1..]);
      assert ReplaceUnderscores(s) == Piece(s[0]) + rest;
      BoundaryCountConcat(Piece(s[0]), rest);
      if s[0] == '_' {
        assert BoundaryCount(Piece(s[0])) == 0 by {
          assert Piece(s[0])[1..] == "> " && ("> ")[1..] == " ";
        }
      }
    } else if |s| == 1 {
      assert ReplaceUnderscores(s) == Piece(s[0]);
      if s[0] == '_' {
        assert Piece(s[0])[1..] == "> " && ("> ")[1..] == " ";
      }
    }
  }

  /**
   * getReadableName: the underscores replaced first, then the spaces
   * inserted, so no underscore is left.
   */
  function ReadableName(name: string): (r: string)
    ensures forall i :: 0 <= i < |r| ==> r[i] != '_'
  {
    NoUnderscoreSurvives(ReplaceUnderscores(name));
    InsertSpaces(ReplaceUnderscores(name))
  }

  /**
   * The readable name's length is the name's, two more per underscore
   * and one more per boundary of the name.
   */
  lemma ReadableNameShape(name: string)
    ensures |ReadableName(name)| == |name| + 2 * Count(name, '_') + BoundaryCount(name)
  {
    var replaced := ReplaceUnderscores(name);
    ReplaceUnderscoresLength(name);
    InsertSpacesLength(replaced);
    ReplacementKeepsBoundaries(name);
  }

  /** Inserting spaces adds no underscore. */
  lemma {:induction false} NoUnderscoreSurvives(s: string)
    requires forall i :: 0 <= i < |s| ==> s[i] != '_'
    ensures forall i :: 0 <= i < |InsertSpaces(s)| ==> InsertSpaces(s)[i] != '_'
    decreases |s|
  {
    if |s| > 1 {
      NoUnderscoreSurvives(s[1..]);
    }
  }

  /**
   * generateDisplayNameForClass: the readable simple name in its own case;
   * apart from the spaces it is the name with its underscores replaced.
   */
  function ClassDisplayName(simpleName: string): (r: string)
    ensures WithoutSpaces(r) == WithoutSpaces(ReplaceUnderscores(simpleName))
    ensures |r| == |simpleName| + 2 * Count(simpleName, '_') + BoundaryCount(simpleName)
  {
    InsertSpacesOnlyAddsSpaces(ReplaceUnderscores(simpleName));
    ReadableNameShape(simpleName);
    ReadableName(simpleName)
  }

  /** generateDisplayNameForNestedClass: the readable simple name of the nested class; the enclosing types play no part. */
  function NestedClassDisplayName(enclosingTypes: seq<string>, simpleName: string): (r: string)
    ensures r == ClassDisplayName(simpleName)
  {
    ReadableName(simpleName)
  }

  /**
   * generateDisplayNameForMethod: the readable method name lower-cased,
   * the boundaries being found before the case is lost.
   */
  function MethodDisplayName(enclosingTypes: seq<string>, testClass: string, methodName: string): (r: string)
    ensures |r| == |ReadableName(methodName)|
    ensures forall i :: 0 <= i < |r| ==> !IsUpper(r[i]) && r[i] == ToLowerChar(ReadableName(methodName)[i])
  {
    ToLowerCase(ReadableName(methodName))
  }

  /** Lower-casing first would lose the case boundary: "aB" reads "a b", not "ab". */
  lemma CaseBoundariesComeFirst()
    ensures MethodDisplayName([], "T", "aB") == "a b"
    ensures ReadableName(ToLowerCase("aB")) == "ab"
    ensures ClassDisplayName("aB") == "a B"
  {
    assert ReplaceUnderscores("aB") == "aB" by {
      assert ReplaceUnderscores("B") == "B";
    }
    assert ToLowerCase("aB") == "ab";
    assert ReplaceUnderscores("ab") == "ab" by {
      assert ReplaceUnderscores("b") == "b";
    }
  }
}
