/** The distinct characters of a name, in order of first appearance
    (`uniqueChars` in src/components/WorksheetPreview.tsx). */
module UniqueChars {

  /** The characters matched by the JavaScript regular-expression class `\s`:
      the ECMAScript white-space and line-terminator code points. */
  predicate IsWhitespace(c: char) {
    || c == '\t' || c == '\n' || c == '\U{0B}' || c == '\U{0C}' || c == '\r' || c == ' '
    || c == '\U{A0}' || c == '\U{1680}'
    || ('\U{2000}' <= c <= '\U{200A}')
    || c == '\U{2028}' || c == '\U{2029}' || c == '\U{202F}' || c == '\U{205F}'
    || c == '\U{3000}' || c == '\U{FEFF}'
  }

  /** `name.replace(/\s+/g, '')`: the name with every white-space character dropped. */
  function RemoveWhitespace(s: string): (r: string)
    ensures forall c :: c in r <==> c in s && !IsWhitespace(c)
    decreases |s|
  {
    if |s| == 0 then []
    else
      var init, last := s[..|s| - 1], s[|s| - 1];
      assert s == init + [last];
      RemoveWhitespace(init) + (if IsWhitespace(last) then [] else [last])
  }

  /** `[...new Set(s)]`: a set remembers insertion order, so each element is
      kept at its first occurrence. */
  function Dedup(s: string): (r: seq<char>)
    ensures forall c :: c in r <==> c in s
    ensures forall i, j :: 0 <= i < j < |r| ==> r[i] != r[j]
    decreases |s|
  {
    if |s| == 0 then []
    else
      var init, last := s[..|s| - 1], s[|s| - 1];
      assert s == init + [last];
      var r := Dedup(init);
      if last in r then r else r + [last]
  }

  /** The distinct non-white-space characters of a name. */
  function UniqueChars(name: string): (u: seq<char>)
    ensures forall i :: 0 <= i < |u| ==> !IsWhitespace(u[i])
    ensures forall i, j :: 0 <= i < j < |u| ==> u[i] != u[j]
    ensures forall c :: c in u <==> c in name && !IsWhitespace(c)
  {
    Dedup(RemoveWhitespace(name))
  }

  /** The index at which `c` first occurs in `s`. */
  function FirstIndex(s: string, c: char): (k: nat)
    requires c in s
    ensures k < |s| && s[k] == c && c !in s[..k]
    decreases |s|
  {
    var init := s[..|s| - 1];
    assert s == init + [s[|s| - 1]];
    if c in init then FirstIndex(init, c) else |s| - 1
  }

  /** Appending one character to the name appends it to the distinct list
      exactly when it is neither white space nor already present. */
  lemma {:induction false} UniqueCharsSnoc(s: string, x: char)
    ensures UniqueChars(s + [x])
         == if IsWhitespace(x) || x in UniqueChars(s) then UniqueChars(s) else UniqueChars(s) + [x]
  {
    var t := s + [x];
    assert t[..|t| - 1] == s;
    if IsWhitespace(x) {
      assert RemoveWhitespace(t) == RemoveWhitespace(s);
    } else {
      var cleaned := RemoveWhitespace(s);
      assert RemoveWhitespace(t) == cleaned + [x];
      assert (cleaned + [x])[..|cleaned + [x]| - 1] == cleaned;
    }
  }

  /** Adding a character at the end does not move any earlier first occurrence. */
  lemma FirstIndexSnoc(s: string, x: char, c: char)
    requires c in s
    ensures c in s + [x] && FirstIndex(s + [x], c) == FirstIndex(s, c)
  {
    assert (s + [x])[..|s|] == s;
  }

  /** The distinct characters keep the order of their first appearance in the name. */
  lemma {:induction false} UniqueCharsFirstAppearanceOrder(name: string)
    ensures forall i, j :: 0 <= i < j < |UniqueChars(name)| ==>
      FirstIndex(name, UniqueChars(name)[i]) < FirstIndex(name, UniqueChars(name)[j])
    decreases |name|
  {
    if |name| > 0 {
      var s, x := name[..|name| - 1], name[|name| - 1];
      assert name == s + [x];
      UniqueCharsFirstAppearanceOrder(s);
      UniqueCharsSnoc(s, x);
      var u, v := UniqueChars(s), UniqueChars(name);
      forall i, j | 0 <= i < j < |v|
        ensures FirstIndex(name, v[i]) < FirstIndex(name, v[j])
      {
        FirstIndexSnoc(s, x, v[i]);
        if j < |u| {
          FirstIndexSnoc(s, x, v[j]);
        } else {
          assert v[j] == x && x !in s;
          assert FirstIndex(name, x) == |s|;
        }
      }
    }
  }
}
