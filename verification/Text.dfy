/** Trimming white space, as every part does with names it is given. */
module Text {
  predicate IsSpace(c: char) {
    || c == ' ' || '\t' <= c <= '\r' || c == '\U{85}' || c == '\U{A0}' || c == '\U{1680}'
        || '\U{2000}' <= c <= '\U{200A}'
    || c == '\U{2028}' || c == '\U{2029}' || c == '\U{202F}' || c == '\U{205F}' || c == '\U{3000}'
  }

  function TrimSpace(s: string): string {
    if s == "" then s
    else if IsSpace(s[0]) then TrimSpace(s[1..])
    else if IsSpace(s[|s| - 1]) then TrimSpace(s[..|s| - 1])
    else s
  }

  /** Trimming takes white space off both ends and nothing else. */
  lemma {:induction false} TrimmedEnds(s: string) returns (left: string, right: string)
    ensures s == left + TrimSpace(s) + right
    ensures (forall c :: c in left ==> IsSpace(c)) && (forall c :: c in right ==> IsSpace(c))
    ensures TrimSpace(s) != "" ==> !IsSpace(TrimSpace(s)[0]) && !IsSpace(TrimSpace(s)[|TrimSpace(s)| - 1])
    decreases |s|
  {
    hide IsSpace;
    left, right := "", "";
    if s != "" {
      if IsSpace(s[0]) {
        left, right := TrimmedEnds(s[1..]);
        assert s == [s[0]] + s[1..];
        left := [s[0]] + left;
      } else if IsSpace(s[|s| - 1]) {
        left, right := TrimmedEnds(s[..|s| - 1]);
        assert s == s[..|s| - 1] + [s[|s| - 1]];
        right := right + [s[|s| - 1]];
      } else {
        assert s == left + s + right;
      }
    }
  }

  lemma {:induction false} TrimmedTwice(s: string)
    ensures TrimSpace(TrimSpace(s)) == TrimSpace(s)
    ensures TrimSpace(s) != "" ==> !IsSpace(TrimSpace(s)[0]) && !IsSpace(TrimSpace(s)[|TrimSpace(s)| - 1])
    decreases |s|
  {
    if s != "" {
      if IsSpace(s[0]) { TrimmedTwice(s[1..]); }
      else if IsSpace(s[|s| - 1]) { TrimmedTwice(s[..|s| - 1]); }
    }
  }
}
