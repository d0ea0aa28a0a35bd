/** Trimming and searching text, as sequences of Unicode scalar values. */
module Text {

  /** The White_Space property of the Unicode Character Database. */
  predicate IsWhitespace(c: char) {
    var v := c as int;
    9 <= v <= 13 || v == 0x20 || v == 0x85 || v == 0xA0 || v == 0x1680 || 0x2000 <= v <= 0x200A
    || v == 0x2028 || v == 0x2029 || v == 0x202F || v == 0x205F || v == 0x3000
  }

  /** In ASCII: tab, the line breaks and the other controls next to them, and the blank. */
  lemma AsciiWhitespace(c: char)
    requires (c as int) < 128
    ensures IsWhitespace(c) <==> c == ' ' || c == '\t' || c == '\n' || c == '\r' || c as int == 11 || c as int == 12
  {}

  function TrimStart(s: string): (t: string)
    ensures t == [] || !IsWhitespace(t[0])
    ensures |t| <= |s| && t == s[|s| - |t|..]
    ensures forall i :: 0 <= i < |s| - |t| ==> IsWhitespace(s[i])
  {
    if s == [] then s
    else if IsWhitespace(s[0]) then TrimStart(s[1..])
    else s
  }

  function TrimEnd(s: string): (t: string)
    ensures t == [] || !IsWhitespace(t[|t| - 1])
    ensures t <= s
    ensures forall i :: |t| <= i < |s| ==> IsWhitespace(s[i])
  {
    if s == [] then s
    else if IsWhitespace(s[|s| - 1]) then TrimEnd(s[..|s| - 1])
    else s
  }

  function Trim(s: string): (t: string)
    ensures t == [] || (!IsWhitespace(t[0]) && !IsWhitespace(t[|t| - 1]))
  {
    TrimEnd(TrimStart(s))
  }

  /** Trimming takes off white space at both ends, and nothing else. */
  lemma TrimStrips(s: string) returns (from: nat, to: nat)
    ensures from <= to <= |s| && Trim(s) == s[from..to]
    ensures forall k :: 0 <= k < from || to <= k < |s| ==> IsWhitespace(s[k])
    ensures from < to ==> !IsWhitespace(s[from]) && !IsWhitespace(s[to - 1])
  {
    hide TrimStart, TrimEnd, IsWhitespace;
    var start := TrimStart(s);
    from := |s| - |start|;
    to := from + |TrimEnd(start)|;
    forall k | to <= k < |s| ensures IsWhitespace(s[k]) { assert s[k] == start[k - from]; }
  }

  /** The last place before `end` that holds `c`, or -1. */
  function LastIndex(s: string, c: char, end: nat): (i: int)
    requires end <= |s|
    ensures -1 <= i < end
    ensures i >= 0 ==> s[i] == c
    ensures forall j :: i < j < end ==> s[j] != c
  {
    if end == 0 then -1
    else if s[end - 1] == c then end - 1
    else LastIndex(s, c, end - 1)
  }
}
