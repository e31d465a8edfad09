/** Types shared by every part of the model. */
module Common {

  datatype Option<+T> = None | Some(value: T)

  datatype Result<+T, +E> = Ok(value: T) | Err(error: E)

  /** What a conversion that the database promises never to leave blank returns. */
  type NonEmptyText = s: string | s != "" witness "0"

  /** A moment in time: nanoseconds since the zero time of the clock. */
  type Moment = int

  /**
   * What the program takes from its language's libraries and this model does not
   * look into: character classes outside ASCII, case folding, number and time layouts,
   * rounding, and the clock. Every statement of the model holds for all of them.
   */
  datatype Host = Host(
    wideSpace: char -> bool,
    wideDigit: char -> bool,
    wideLetter: char -> bool,
    wideUpper: char -> char,
    toUpper: string -> string,
    toLower: string -> string,
    parseFloat: string -> Option<real>,
    formatFloat: real -> string,
    round: (real, real) -> real,
    now: Moment,
    startOfDay: Moment -> Moment,
    atMidnight: Moment -> bool,
    parseTime: string -> Option<Moment>,
    formatDate: Moment -> string,
    formatTimestamp: Moment -> string,
    year: Moment -> real,
    month: Moment -> real,
    day: Moment -> real
  )

  predicate IsAscii(c: char) { c < '\U{80}' }

  predicate IsSpace(h: Host, c: char) {
    if IsAscii(c) then c == ' ' || '\t' <= c <= '\r' else h.wideSpace(c)
  }

  predicate IsAsciiDigit(c: char) { '0' <= c <= '9' }

  predicate IsDigit(h: Host, c: char) {
    if IsAscii(c) then IsAsciiDigit(c) else h.wideDigit(c)
  }

  predicate IsLetter(h: Host, c: char) {
    if IsAscii(c) then 'a' <= c <= 'z' || 'A' <= c <= 'Z' else h.wideLetter(c)
  }

  function UpperChar(h: Host, c: char): char {
    if 'a' <= c <= 'z' then ((c as int) - 32) as char
    else if IsAscii(c) then c
    else h.wideUpper(c)
  }

  /** strings.ToUpper on the text of an identifier. */
  function Upper(h: Host, s: string): (u: string)
    ensures |u| == |s|
  {
    seq(|s|, i requires 0 <= i < |s| => UpperChar(h, s[i]))
  }

  /** Simple case folding towards an upper-case ASCII letter; the long s and the Kelvin
      sign are the only characters outside ASCII that fold to one. */
  function FoldChar(c: char): char {
    if 'a' <= c <= 'z' then ((c as int) - 32) as char
    else if c == '\U{17F}' then 'S'
    else if c == '\U{212A}' then 'K'
    else c
  }

  /** strings.EqualFold against a word written in upper-case ASCII letters. */
  predicate EqualFold(s: string, word: string) {
    |s| == |word| && forall i :: 0 <= i < |s| ==> FoldChar(s[i]) == word[i]
  }

  predicate Blank(h: Host, s: string) {
    forall i :: 0 <= i < |s| ==> IsSpace(h, s[i])
  }

  function TrimLeft(h: Host, s: string): (t: string)
    ensures |t| <= |s|
    ensures t != "" ==> !IsSpace(h, t[0])
    ensures t == "" <==> Blank(h, s)
  {
    if s == "" then "" else if IsSpace(h, s[0]) then TrimLeft(h, s[1..]) else s
  }

  function TrimRight(h: Host, s: string): (t: string)
    ensures |t| <= |s| && t == s[..|t|]
    ensures t != "" ==> !IsSpace(h, t[|t| - 1])
    ensures t == "" <==> Blank(h, s)
  {
    if s == "" then "" else if IsSpace(h, s[|s| - 1]) then TrimRight(h, s[..|s| - 1]) else s
  }

  /** strings.TrimSpace. */
  function Trim(h: Host, s: string): (t: string)
    ensures |t| <= |s|
    ensures t == "" <==> Blank(h, s)
  {
    TrimRight(h, TrimLeft(h, s))
  }

  /** The text is the word, with white space around it or not. */
  ghost predicate Surrounds(h: Host, text: string, word: string) {
    && (word != "" ==> !IsSpace(h, word[0]) && !IsSpace(h, word[|word| - 1]))
    && exists i, j :: 0 <= i <= j <= |text| && SetBetween(h, text, word, i, j)
  }

  ghost predicate SetBetween(h: Host, text: string, word: string, i: nat, j: nat)
    requires i <= j <= |text|
  {
    text[i..j] == word && Blank(h, text[..i]) && Blank(h, text[j..])
  }

  lemma {:induction false} TrimLeftDrops(h: Host, s: string)
    ensures var i := |s| - |TrimLeft(h, s)|; TrimLeft(h, s) == s[i..] && Blank(h, s[..i])
  {
    hide IsSpace;
    if s != "" && IsSpace(h, s[0]) {
      TrimLeftDrops(h, s[1..]);
      var i := |s| - |TrimLeft(h, s)|;
      assert s[..i] == [s[0]] + s[1..][..i - 1];
    }
  }

  lemma {:induction false} TrimRightDrops(h: Host, s: string)
    ensures Blank(h, s[|TrimRight(h, s)|..])
  {
    var n := |s| - 1;
    if s != "" && IsSpace(h, s[n]) {
      TrimRightDrops(h, s[..n]);
      var t := TrimRight(h, s[..n]);
      assert s[|t|..] == s[..n][|t|..] + [s[n]];
    }
  }

  /** Trimming takes off exactly the white space at either end. */
  lemma TrimSurrounds(h: Host, text: string, word: string)
    ensures Trim(h, text) == word <==> Surrounds(h, text, word)
  {
    TrimmedSurrounds(h, text);
    hide Trim, IsSpace, SetBetween;
    var trimmed := Trim(h, text);
    if Surrounds(h, text, word) {
      if trimmed != "" { SurroundsOnce(h, text, trimmed, word); }
      else if word != "" { SurroundsOnce(h, text, word, trimmed); }
    }
  }

  lemma TrimmedSurrounds(h: Host, text: string)
    ensures Surrounds(h, text, Trim(h, text))
  {
    hide IsSpace, TrimLeft, TrimRight;
    var left, trimmed := TrimLeft(h, text), Trim(h, text);
    TrimLeftDrops(h, text);
    TrimRightDrops(h, left);
    var i := |text| - |left|;
    var j := i + |trimmed|;
    assert text[i..j] == left[..|trimmed|] == trimmed && text[j..] == left[|trimmed|..];
    assert SetBetween(h, text, trimmed, i, j);
    if trimmed != "" { assert trimmed[0] == left[0]; }
  }

  lemma InkBetween(h: Host, text: string, word: string, i: nat, j: nat, m: nat)
    requires i <= j <= |text| && SetBetween(h, text, word, i, j) && m < |text|
    ensures IsSpace(h, text[m]) || i <= m < j
  {
    hide IsSpace;
    assert m < i ==> text[..i][m] == text[m];
    assert j <= m ==> text[j..][m - j] == text[m];
  }

  lemma SurroundsOnce(h: Host, text: string, a: string, b: string)
    requires Surrounds(h, text, a) && Surrounds(h, text, b) && a != ""
    ensures a == b
  {
    hide IsSpace, Blank;
    var i, j :| 0 <= i <= j <= |text| && SetBetween(h, text, a, i, j);
    var k, l :| 0 <= k <= l <= |text| && SetBetween(h, text, b, k, l);
    assert text[i] == a[0] && text[j - 1] == a[|a| - 1];
    hide SetBetween;
    InkBetween(h, text, b, k, l, i);
    InkBetween(h, text, b, k, l, j - 1);
    assert text[k] == b[0] && text[l - 1] == b[|b| - 1] by { assert SetBetween(h, text, b, k, l); }
    InkBetween(h, text, a, i, j, k);
    InkBetween(h, text, a, i, j, l - 1);
  }

  /** strings.ReplaceAll: from the left, without overlaps; an empty `what` stands between
      any two characters and at both ends. */
  function ReplaceAll(s: string, what: string, with: string): string {
    if what == "" then with + Interleave(s, with) else ReplaceText(s, what, with)
  }

  function Interleave(s: string, with: string): string {
    if s == "" then "" else [s[0]] + with + Interleave(s[1..], with)
  }

  function ReplaceText(s: string, what: string, with: string): string
    requires what != ""
  {
    if s == "" then ""
    else if what <= s then with + ReplaceText(s[|what|..], what, with)
    else [s[0]] + ReplaceText(s[1..], what, with)
  }

  /** strings.Compare. */
  function CompareText(a: string, b: string): (c: int)
    ensures -1 <= c <= 1
  {
    if a == "" then (if b == "" then 0 else -1)
    else if b == "" then 1
    else if a[0] < b[0] then -1
    else if a[0] > b[0] then 1
    else CompareText(a[1..], b[1..])
  }

  predicate Distinct<T(==)>(s: seq<T>) {
    forall i, j :: 0 <= i < j < |s| ==> s[i] != s[j]
  }

  /** What a loop needs to know about the next element of a list. */
  lemma TakeNext<T>(s: seq<T>, i: nat)
    requires i < |s|
    ensures s[..i + 1][..i] == s[..i] && s[..i + 1][i] == s[i]
  {
  }
}
