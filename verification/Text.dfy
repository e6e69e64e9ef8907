/** The string operations of the Go library that the models use, on strings of Unicode characters. */
module Text {

  function Utf8Width(c: char): nat {
    var n := c as int;
    if n < 0x80 then 1 else if n < 0x800 then 2 else if n < 0x1_0000 then 3 else 4
  }

  /** What `len` gives for the string's bytes. */
  function Utf8Length(s: string): nat {
    if s == [] then 0 else Utf8Width(s[0]) + Utf8Length(s[1..])
  }

  predicate IsControl(c: char) {
    var n := c as int;
    n < 0x20 || 0x7F <= n < 0xA0
  }

  const MAX_DETAIL_FIELD_LENGTH := 1024

  /** One field accepted by `validateDetailStrings`. */
  predicate ValidDetail(s: string) {
    Utf8Length(s) <= MAX_DETAIL_FIELD_LENGTH && forall i | 0 <= i < |s| :: !IsControl(s[i])
  }

  predicate ValidDetails(values: seq<string>) {
    forall i | 0 <= i < |values| :: ValidDetail(values[i])
  }

  /** Simple case folding, as far as it can meet an ASCII letter. */
  function Fold(c: char): char {
    if 'A' <= c <= 'Z' then ((c as int) + 32) as char
    else if c == '\U{212A}' then 'k'
    else if c == '\U{017F}' then 's'
    else c
  }

  /** `strings.EqualFold` against an ASCII string. */
  predicate EqualFold(a: string, b: string) {
    |a| == |b| && forall i | 0 <= i < |a| :: Fold(a[i]) == Fold(b[i])
  }

  predicate ContainsFold(values: seq<string>, target: string) {
    exists i | 0 <= i < |values| :: EqualFold(values[i], target)
  }

  /** Lower case maps character by character; the theorems hold for every such mapping. */
  type CaseMap = char -> char

  function ToLower(s: string, lower: CaseMap): string {
    seq(|s|, i requires 0 <= i < |s| => lower(s[i]))
  }

  /** Upper case, as far as it can meet an ASCII letter. */
  function UpperChar(c: char): char {
    if 'a' <= c <= 'z' then ((c as int) - 32) as char
    else if c == '\U{0131}' then 'I'
    else if c == '\U{017F}' then 'S'
    else c
  }

  function ToUpper(s: string): string {
    seq(|s|, i requires 0 <= i < |s| => UpperChar(s[i]))
  }

  predicate IsSpace(c: char) {
    var n := c as int;
    9 <= n <= 13 || n == 0x20 || n == 0x85 || n == 0xA0 || n == 0x1680 || 0x2000 <= n <= 0x200A
    || n == 0x2028 || n == 0x2029 || n == 0x202F || n == 0x205F || n == 0x3000
  }

  function TrimLeft(s: string): string {
    if s != [] && IsSpace(s[0]) then TrimLeft(s[1..]) else s
  }

  function TrimRight(s: string): string {
    if s != [] && IsSpace(s[|s| - 1]) then TrimRight(s[..|s| - 1]) else s
  }

  function TrimSpace(s: string): string {
    TrimRight(TrimLeft(s))
  }

  /** `strings.Split` at a single character. */
  function Split(s: string, c: char): (parts: seq<string>)
    ensures |parts| >= 1
  {
    if s == [] then [""]
    else if s[0] == c then [""] + Split(s[1..], c)
    else
      var rest := Split(s[1..], c);
      [[s[0]] + rest[0]] + rest[1..]
  }

  // ---------------------------------------------------------------------------------------
  // What these operations mean.

  predicate Ascii(s: string) {
    forall i | 0 <= i < |s| :: s[i] < '\U{80}'
  }

  lemma {:induction false} AsciiLength(s: string)
    requires Ascii(s)
    ensures Utf8Length(s) == |s|
  {
    if s != "" { AsciiLength(s[1..]); }
  }

  /** Folding ignores the case of ASCII letters, and nothing else. */
  lemma FoldsLikeUpper(a: string, b: string)
    requires Ascii(a) && Ascii(b)
    ensures EqualFold(a, b) <==> ToUpper(a) == ToUpper(b)
  {
    if ToUpper(a) == ToUpper(b) {
      forall i | 0 <= i < |a| ensures |a| == |b| && Fold(a[i]) == Fold(b[i]) {
        assert |ToUpper(a)| == |ToUpper(b)| && ToUpper(a)[i] == ToUpper(b)[i];
      }
      assert |ToUpper(a)| == |a| && |ToUpper(b)| == |b|;
    }
  }

  predicate Printable(s: string) {
    |s| <= 1024 && forall i | 0 <= i < |s| :: ' ' <= s[i] <= '~'
  }

  /** Every printable ASCII text of reasonable length is a valid detail. */
  lemma PrintableIsValid(s: string)
    requires Printable(s)
    ensures ValidDetail(s)
  {
    AsciiLength(s);
  }

  lemma PrintablesAreValid(values: seq<string>)
    requires forall s | s in values :: Printable(s)
    ensures ValidDetails(values)
  {
    forall i | 0 <= i < |values| ensures ValidDetail(values[i]) {
      PrintableIsValid(values[i]);
    }
  }

  function Join(parts: seq<string>, separator: string): string {
    if parts == [] then ""
    else if |parts| == 1 then parts[0]
    else parts[0] + separator + Join(parts[1..], separator)
  }

  predicate Without(s: string, c: char) {
    forall i | 0 <= i < |s| :: s[i] != c
  }

  /** Splitting and joining are inverse: there is one way to cut a text at every separator. */
  lemma {:induction false} SplitExactly(s: string, c: char, parts: seq<string>)
    ensures parts == Split(s, c) <==>
      parts != [] && Join(parts, [c]) == s && forall i | 0 <= i < |parts| :: Without(parts[i], c)
  {
    SplitJoins(s, c);
    if parts != [] && Join(parts, [c]) == s && forall i | 0 <= i < |parts| :: Without(parts[i], c) {
      JoinSplits(parts, c);
    }
  }

  lemma {:induction false} SplitJoins(s: string, c: char)
    ensures Join(Split(s, c), [c]) == s
    ensures forall i | 0 <= i < |Split(s, c)| :: Without(Split(s, c)[i], c)
  {
    if s != "" {
      SplitJoins(s[1..], c);
    }
  }

  lemma {:induction false} SplitWhole(s: string, c: char)
    requires Without(s, c)
    ensures Split(s, c) == [s]
  {
    if s != "" {
      SplitWhole(s[1..], c);
      assert s == [s[0]] + s[1..];
    }
  }

  lemma {:induction false} SplitFirst(a: string, b: string, c: char)
    requires Without(a, c)
    ensures Split(a + [c] + b, c) == [a] + Split(b, c)
  {
    var s := a + [c] + b;
    if a == "" {
      assert s[1..] == b;
    } else {
      assert s[1..] == a[1..] + [c] + b;
      SplitFirst(a[1..], b, c);
      assert a == [a[0]] + a[1..];
    }
  }

  lemma {:induction false} JoinSplits(parts: seq<string>, c: char)
    requires parts != [] && forall i | 0 <= i < |parts| :: Without(parts[i], c)
    ensures Split(Join(parts, [c]), c) == parts
  {
    hide Split, Without;
    var first, rest := parts[0], parts[1..];
    assert parts == [first] + rest;
    if rest == [] {
      SplitWhole(first, c);
    } else {
      JoinSplits(rest, c);
      SplitFirst(first, Join(rest, [c]), c);
    }
  }

  predicate Blank(s: string) {
    forall i | 0 <= i < |s| :: IsSpace(s[i])
  }

  predicate BareEnds(s: string) {
    s != "" ==> !IsSpace(s[0]) && !IsSpace(s[|s| - 1])
  }

  /** Trimming takes away the spaces around a text, and nothing else. */
  lemma TrimExactly(s: string) returns (before: string, after: string)
    ensures s == before + TrimSpace(s) + after && Blank(before) && Blank(after) && BareEnds(TrimSpace(s))
  {
    before := LeftTrimmed(s);
    after := RightTrimmed(TrimLeft(s));
    assert before + (TrimSpace(s) + after) == before + TrimSpace(s) + after;
  }

  lemma BareIsTrimmed(s: string)
    requires BareEnds(s)
    ensures TrimSpace(s) == s
  {
  }

  lemma {:induction false} LeftTrimmed(s: string) returns (before: string)
    ensures s == before + TrimLeft(s) && Blank(before)
    ensures TrimLeft(s) != "" ==> !IsSpace(TrimLeft(s)[0])
  {
    if s != "" && IsSpace(s[0]) {
      before := LeftTrimmed(s[1..]);
      before := [s[0]] + before;
    } else {
      before := "";
    }
  }

  lemma {:induction false} RightTrimmed(s: string) returns (after: string)
    ensures s == TrimRight(s) + after && Blank(after)
    ensures TrimRight(s) != "" ==> TrimRight(s)[0] == s[0] && !IsSpace(TrimRight(s)[|TrimRight(s)| - 1])
  {
    if s != "" && IsSpace(s[|s| - 1]) {
      after := RightTrimmed(s[..|s| - 1]);
      after := after + [s[|s| - 1]];
    } else {
      after := "";
    }
  }
}
