/** Python's str.strip. */
module PyText {
  /** str.isspace */
  predicate IsSpace(c: char) {
    c == ' ' || '\t' <= c <= '\r' || '\U{1C}' <= c <= '\U{1F}' || c == '\U{85}' || c == '\U{A0}' || c == '\U{1680}'
    || '\U{2000}' <= c <= '\U{200A}' || c in {'\U{2028}', '\U{2029}', '\U{202F}', '\U{205F}', '\U{3000}'}
  }

  predicate Blank(s: string) {
    forall k :: 0 <= k < |s| ==> IsSpace(s[k])
  }

  function StripStart(s: string): string {
    if s != [] && IsSpace(s[0]) then StripStart(s[1..]) else s
  }

  function StripEnd(s: string): string {
    if s != [] && IsSpace(s[|s| - 1]) then StripEnd(s[..|s| - 1]) else s
  }

  /** str.strip */
  function Strip(s: string): string {
    StripEnd(StripStart(s))
  }

  lemma {:induction false} StripEndClean(s: string)
    ensures StripEnd(StripEnd(s)) == StripEnd(s) && StripEnd(s) <= s
  {
    if s != [] && IsSpace(s[|s| - 1]) {
      StripEndClean(s[..|s| - 1]);
    }
  }

  lemma {:induction false} StripStartClean(s: string)
    ensures StripStart(s) != [] ==> !IsSpace(StripStart(s)[0])
  {
    if s != [] && IsSpace(s[0]) {
      StripStartClean(s[1..]);
    }
  }

  /** Stripping twice is stripping once. */
  lemma StripIdempotent(s: string)
    ensures Strip(Strip(s)) == Strip(s)
  {
    var t := StripStart(s);
    StripStartClean(s);
    StripEndClean(t);
    if Strip(s) != [] {
      assert Strip(s)[0] == t[0];
      assert StripStart(Strip(s)) == Strip(s);
    }
  }
}
