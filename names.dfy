/** The person-name sanitisers. The enrolment script, the interactive menu and
    the photo-capture tool all keep the same characters (`c.isalnum()` or one of
    space, '-' and '_') and strip the result; the photo tool then writes spaces
    as underscores so that the name can be used in file names. */
module Names {
  import opened Text

  /** `c.isalnum() or c in (' ', '-', '_')`, also written `c in " _-"`. */
  predicate KeepNameChar(c: char) {
    IsAlnum(c) || c == ' ' || c == '-' || c == '_'
  }

  /** `"".join(c for c in s if KeepNameChar(c))`. */
  function KeepNameChars(s: string): (r: string)
    ensures |r| <= |s|
    ensures forall i :: 0 <= i < |r| ==> KeepNameChar(r[i])
    ensures forall c :: c in r <==> c in s && KeepNameChar(c)
  {
    if s == [] then []
    else (if KeepNameChar(s[0]) then [s[0]] else []) + KeepNameChars(s[1..])
  }

  /** The filter works character by character and keeps the order of what it keeps. */
  lemma {:induction false} KeepNameCharsConcat(a: string, b: string)
    ensures KeepNameChars(a + b) == KeepNameChars(a) + KeepNameChars(b)
  {
    if a == [] {
      assert a + b == b;
    } else {
      assert (a + b)[1..] == a[1..] + b;
      KeepNameCharsConcat(a[1..], b);
    }
  }

  /** The only whitespace character the filter lets through is the space. */
  lemma KeptWhitespaceIsSpace(c: char)
    requires KeepNameChar(c)
    ensures IsSpace(c) <==> c == ' '
  {
  }

  /** The cleaned name of the enrolment script (src/add_person.py) and the menu
      (interactive_cli.py): filtered, then stripped. Spaces inside are kept. */
  function CleanName(s: string): (r: string)
    ensures forall i :: 0 <= i < |r| ==> KeepNameChar(r[i])
    ensures r == [] || (r[0] != ' ' && r[|r| - 1] != ' ')
    ensures forall c :: c in r ==> c in s
    ensures exists i ::
              && 0 <= i && i + |r| <= |KeepNameChars(s)| && r == KeepNameChars(s)[i..i + |r|]
              && AllSpace(KeepNameChars(s)[..i]) && AllSpace(KeepNameChars(s)[i + |r|..])
  {
    var k := KeepNameChars(s);
    var r := Strip(k);
    var i := StripOffset(k);
    SliceChars(k, i, i + |r|);
    assert r == k[i..i + |r|] && AllSpace(k[..i]) && AllSpace(k[i + |r|..]);
    r
  }

  /** Cleaning an already stripped input gives the same name as cleaning the raw
      input: the menu strips before cleaning, the enrolment script does not. */
  lemma CleanNameOfStripped(s: string)
    ensures CleanName(Strip(s)) == CleanName(s)
  {
    var m := Strip(s);
    var i := StripOffset(s);
    var j := i + |m|;
    assert m == s[i..j];
    SplitAround(s, i, j);
    CleanNameIgnoresPadding(s[..i], s[i..j], s[j..]);
  }

  /** Whitespace around the input does not change the cleaned name. */
  lemma CleanNameIgnoresPadding(a: string, m: string, b: string)
    requires AllSpace(a) && AllSpace(b)
    ensures CleanName(a + m + b) == CleanName(m)
  {
    var ka, km, kb := KeepNameChars(a), KeepNameChars(m), KeepNameChars(b);
    assert KeepNameChars(a + m + b) == ka + km + kb by {
      KeepNameCharsConcat(a + m, b);
      KeepNameCharsConcat(a, m);
    }
    SpacesKeepSpaces(a);
    SpacesKeepSpaces(b);
    StripIgnoresPadding(ka, km, kb);
  }

  lemma SplitAround(s: string, i: nat, j: nat)
    requires i <= j <= |s|
    ensures s == s[..i] + s[i..j] + s[j..]
  {
    assert s[..j] == s[..i] + s[i..j];
    assert s == s[..j] + s[j..];
  }

  lemma SliceChars(s: string, i: nat, j: nat)
    requires i <= j <= |s|
    ensures forall c :: c in s[i..j] ==> c in s
  {
    forall c | c in s[i..j] ensures c in s {
      var k :| 0 <= k < j - i && s[i..j][k] == c;
      assert s[i + k] == c;
    }
  }

  lemma SpacesKeepSpaces(a: string)
    requires AllSpace(a)
    ensures AllSpace(KeepNameChars(a))
  {
    var k := KeepNameChars(a);
    forall j | 0 <= j < |k| ensures IsSpace(k[j]) {
      assert k[j] in a;
    }
  }

  /** `s.replace(' ', '_')`. */
  function SpacesToUnderscores(s: string): (r: string)
    ensures |r| == |s|
    ensures forall i :: 0 <= i < |s| ==> r[i] == if s[i] == ' ' then '_' else s[i]
  {
    seq(|s|, i requires 0 <= i < |s| => if s[i] == ' ' then '_' else s[i])
  }

  /** `PhotoCapture.clean_name` (src/photo_capture.py): the cleaned name with its
      inner spaces written as underscores. */
  function PhotoCleanName(s: string): (r: string)
    ensures forall i :: 0 <= i < |r| ==> IsAlnum(r[i]) || r[i] == '-' || r[i] == '_'
    ensures ' ' !in r
    ensures |r| == |CleanName(s)|
    ensures forall i :: 0 <= i < |r| ==> r[i] == if CleanName(s)[i] == ' ' then '_' else CleanName(s)[i]
  {
    SpacesToUnderscores(CleanName(s))
  }
}
