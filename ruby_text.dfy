/** The few Ruby `String` operations the core relies on, on ASCII-classified characters:
    `strip`, `split` (by separator characters, and the whitespace form without arguments),
    `join`, `downcase`, `start_with?`/`end_with?`, and `gsub(/\s+/, '_')`; and ActiveSupport's
    `blank?`, which alone classifies Unicode white space. */
module RubyText {

  /** Ruby's `\s`: space, tab, line feed, vertical tab, form feed, carriage return. */
  predicate IsSpace(c: char) {
    c == ' ' || c == '\t' || c == '\n' || c == '\U{000B}' || c == '\U{000C}' || c == '\r'
  }

  /** The characters `String#strip` removes: `\s` and NUL. */
  predicate IsStrippable(c: char) {
    IsSpace(c) || c == '\U{0000}'
  }

  predicate IsDigit(c: char) {
    '0' <= c <= '9'
  }

  predicate IsAsciiLetter(c: char) {
    'a' <= c <= 'z' || 'A' <= c <= 'Z'
  }

  /** `[a-zA-Z0-9]`; Ruby's `\w` is this plus `_`. */
  predicate IsAlnum(c: char) {
    IsDigit(c) || IsAsciiLetter(c)
  }

  /** `[[:space:]]`, the Unicode white space that ActiveSupport's `blank?` skips: `\s`, next
      line, no-break space, Ogham space mark, the spaces U+2000 to U+200A, the line and paragraph
      separators, the narrow no-break space, the medium mathematical space and the ideographic
      space. */
  predicate IsBlankChar(c: char) {
    || IsSpace(c)
    || c == '\U{0085}' || c == '\U{00A0}' || c == '\U{1680}'
    || '\U{2000}' <= c <= '\U{200A}'
    || c == '\U{2028}' || c == '\U{2029}' || c == '\U{202F}' || c == '\U{205F}' || c == '\U{3000}'
  }

  /** ActiveSupport's `blank?` on a string: `/\A[[:space:]]*\z/`. */
  predicate IsBlank(s: string) {
    forall i :: 0 <= i < |s| ==> IsBlankChar(s[i])
  }

  function Lower(c: char): (d: char)
    ensures 'A' <= c <= 'Z' ==> d as int == c as int + 32
    ensures !('A' <= c <= 'Z') ==> d == c
  {
    if 'A' <= c <= 'Z' then (c as int + 32) as char else c
  }

  /** `String#downcase`, restricted to ASCII letters. */
  function Downcase(s: string): (r: string)
    ensures |r| == |s|
    ensures forall i :: 0 <= i < |s| ==> r[i] == Lower(s[i])
  {
    if s == [] then [] else [Lower(s[0])] + Downcase(s[1..])
  }

  predicate StartsWith(s: string, p: string) {
    |p| <= |s| && s[..|p|] == p
  }

  predicate EndsWith(s: string, p: string) {
    |p| <= |s| && s[|s| - |p|..] == p
  }

  function TrimStart(s: string): (r: string)
    ensures |r| <= |s| && r == s[|s| - |r|..]
    ensures r == [] || !IsStrippable(r[0])
    ensures forall i :: 0 <= i < |s| - |r| ==> IsStrippable(s[i])
  {
    if s != [] && IsStrippable(s[0]) then TrimStart(s[1..]) else s
  }

  function TrimEnd(s: string): (r: string)
    ensures |r| <= |s| && r == s[..|r|]
    ensures r == [] || !IsStrippable(r[|r| - 1])
    ensures forall i :: |r| <= i < |s| ==> IsStrippable(s[i])
  {
    if s != [] && IsStrippable(s[|s| - 1]) then TrimEnd(s[..|s| - 1]) else s
  }

  /** `String#strip`. */
  function Strip(s: string): (r: string)
    ensures r == [] || (!IsStrippable(r[0]) && !IsStrippable(r[|r| - 1]))
  {
    TrimEnd(TrimStart(s))
  }

  /** The fields of `s` between separator characters, empty fields kept: `|Fields(s, seps)|` is one
      more than the number of separators in `s`. */
  function Fields(s: string, seps: set<char>): (r: seq<string>)
    ensures |r| >= 1
    ensures forall i, k :: 0 <= i < |r| && 0 <= k < |r[i]| ==> r[i][k] !in seps
  {
    if s == [] then [""]
    else
      var rest := Fields(s[1..], seps);
      if s[0] in seps then [""] + rest else [[s[0]] + rest[0]] + rest[1..]
  }

  /** Ruby drops trailing empty fields from the result of `split` (limit 0). */
  function DropTrailingEmpty(fs: seq<string>): (r: seq<string>)
    ensures |r| <= |fs| && r == fs[..|r|]
    ensures r == [] || r[|r| - 1] != []
    ensures forall i :: |r| <= i < |fs| ==> fs[i] == []
  {
    if fs != [] && fs[|fs| - 1] == [] then DropTrailingEmpty(fs[..|fs| - 1]) else fs
  }

  /** `s.split(/[seps]/)`. */
  function Split(s: string, seps: set<char>): seq<string> {
    DropTrailingEmpty(Fields(s, seps))
  }

  /** `parts.join(sep)`. */
  function Join(parts: seq<string>, sep: char): string {
    if parts == [] then []
    else if |parts| == 1 then parts[0]
    else parts[0] + [sep] + Join(parts[1..], sep)
  }

  /** `s.split` without arguments: the maximal runs of non-whitespace characters. */
  function Words(s: string): (r: seq<string>)
    ensures forall i :: 0 <= i < |r| ==> r[i] != [] && forall k :: 0 <= k < |r[i]| ==> !IsSpace(r[i][k])
  {
    if s == [] then []
    else
      var rest := Words(s[1..]);
      if IsSpace(s[0]) then rest
      else if s[1..] != [] && !IsSpace(s[1]) then [[s[0]] + rest[0]] + rest[1..]
      else [[s[0]]] + rest
  }

  /** `s.gsub(/\s+/, '_')`: every maximal whitespace run becomes one underscore. */
  function Underscored(s: string): (r: string)
    ensures forall i :: 0 <= i < |r| ==> !IsSpace(r[i])
    ensures |r| <= |s|
  {
    if s == [] then []
    else if IsSpace(s[0]) then
      if s[1..] != [] && IsSpace(s[1]) then Underscored(s[1..]) else ['_'] + Underscored(s[1..])
    else [s[0]] + Underscored(s[1..])
  }

  /** Replace every `from` by `to` (`gsub` with a one-character string). */
  function ReplaceChar(s: string, from: char, to: char): (r: string)
    ensures |r| == |s|
    ensures forall i :: 0 <= i < |s| ==> r[i] == if s[i] == from then to else s[i]
  {
    if s == [] then [] else [if s[0] == from then to else s[0]] + ReplaceChar(s[1..], from, to)
  }

  /** Joining the fields of `s` with the one separator gives back `s`. */
  lemma {:induction false} JoinFields(s: string, c: char)
    ensures Join(Fields(s, {c}), c) == s
  {
    if s != [] {
      var rest := Fields(s[1..], {c});
      JoinFields(s[1..], c);
      if s[0] != c && |rest| > 1 {
        assert Join(rest, c) == rest[0] + [c] + Join(rest[1..], c);
        assert Join([[s[0]] + rest[0]] + rest[1..], c) == [s[0]] + rest[0] + [c] + Join(rest[1..], c);
      }
      assert s == [s[0]] + s[1..];
    }
  }

  lemma {:induction false} FieldsWithoutSeparator(s: string, seps: set<char>)
    requires forall k :: 0 <= k < |s| ==> s[k] !in seps
    ensures Fields(s, seps) == [s]
  {
    if s != [] {
      FieldsWithoutSeparator(s[1..], seps);
      assert s == [s[0]] + s[1..];
    }
  }

  lemma {:induction false} FieldsAfterSeparator(a: string, c: char, b: string, seps: set<char>)
    requires forall k :: 0 <= k < |a| ==> a[k] !in seps
    requires c in seps
    ensures Fields(a + [c] + b, seps) == [a] + Fields(b, seps)
  {
    if a == [] {
      assert a + [c] + b == [c] + b;
      assert ([c] + b)[1..] == b;
    } else {
      FieldsAfterSeparator(a[1..], c, b, seps);
      assert (a + [c] + b)[1..] == a[1..] + [c] + b;
      assert a == [a[0]] + a[1..];
    }
  }

  /** Splitting a join on the separator gives back the parts when no part holds a separator. */
  lemma {:induction false} FieldsJoin(parts: seq<string>, c: char, seps: set<char>)
    requires parts != [] && c in seps
    requires forall i, k :: 0 <= i < |parts| && 0 <= k < |parts[i]| ==> parts[i][k] !in seps
    ensures Fields(Join(parts, c), seps) == parts
  {
    if |parts| == 1 {
      FieldsWithoutSeparator(parts[0], seps);
    } else {
      FieldsJoin(parts[1..], c, seps);
      FieldsAfterSeparator(parts[0], c, Join(parts[1..], c), seps);
      assert parts == [parts[0]] + parts[1..];
    }
  }

  /** `strip` leaves alone a string whose ends are not whitespace. */
  lemma StripUnchanged(s: string)
    requires s != [] && !IsStrippable(s[0]) && !IsStrippable(s[|s| - 1])
    ensures Strip(s) == s
  {
  }

  /** `join(sep)` with a multi-character separator. */
  function JoinWith(parts: seq<string>, sep: string): string {
    if parts == [] then []
    else if |parts| == 1 then parts[0]
    else parts[0] + sep + JoinWith(parts[1..], sep)
  }
}
