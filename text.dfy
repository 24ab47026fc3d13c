/**
  What `stream >> word` extracts from a text file: leading white space is
  skipped and the longest following run of non-space characters is the
  word. When nothing but white space remains, the extraction fails and the
  target string keeps its previous value, which `FirstWord` reports as
  `None`.
*/
module Text {
  import opened Wrappers

  /** The characters `isspace` accepts in the C locale. */
  predicate IsSpace(c: char) {
    c == ' ' || '\t' <= c <= '\r'
  }

  predicate AllSpace(s: string) {
    forall i :: 0 <= i < |s| ==> IsSpace(s[i])
  }

  predicate NoSpace(s: string) {
    forall i :: 0 <= i < |s| ==> !IsSpace(s[i])
  }

  /** The longest prefix of `s` without white space. */
  function WordPrefix(s: string): (w: string)
    ensures |w| <= |s| && w == s[..|w|] && NoSpace(w)
    ensures |w| < |s| ==> IsSpace(s[|w|])
  {
    if s == [] || IsSpace(s[0]) then [] else [s[0]] + WordPrefix(s[1..])
  }

  /** The word `stream >> word` reads from a stream holding `s`. */
  function FirstWord(s: string): (r: Option<string>)
    ensures r.None? <==> AllSpace(s)
    ensures r.Some? ==> r.value != [] && NoSpace(r.value)
  {
    if s == [] then None
    else if IsSpace(s[0]) then FirstWord(s[1..])
    else Some(WordPrefix(s))
  }

  /** A word followed by white space or the end of the text is read back
      whole, whatever white space precedes it. */
  lemma {:induction false} FirstWordOf(lead: string, w: string, rest: string)
    requires AllSpace(lead) && w != [] && NoSpace(w)
    requires rest == [] || IsSpace(rest[0])
    ensures FirstWord(lead + w + rest) == Some(w)
  {
    if lead == [] {
      assert lead + w + rest == w + rest;
      WordPrefixOf(w, rest);
    } else {
      assert (lead + w + rest)[1..] == lead[1..] + w + rest;
      FirstWordOf(lead[1..], w, rest);
    }
  }

  lemma {:induction false} WordPrefixOf(w: string, rest: string)
    requires NoSpace(w)
    requires rest == [] || IsSpace(rest[0])
    ensures WordPrefix(w + rest) == w
  {
    if w == [] {
      assert w + rest == rest;
    } else {
      assert (w + rest)[1..] == w[1..] + rest;
      WordPrefixOf(w[1..], rest);
    }
  }
}
