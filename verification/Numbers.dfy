/** data/import.go: reading a number written with group separators. */
module Numbers {
  import opened Common
  import opened Numerals

  const NON_BREAKING := '\U{A0}'

  /** strings.LastIndex of one character; -1 when there is none. */
  function LastIndex(s: string, c: char): (i: int)
    ensures -1 <= i < |s|
    ensures i >= 0 ==> s[i] == c
    ensures forall j :: i < j < |s| ==> s[j] != c
  {
    if s == "" then -1 else if s[|s| - 1] == c then |s| - 1 else LastIndex(s[..|s| - 1], c)
  }

  function Count(s: string, c: char): nat {
    if s == "" then 0 else Count(s[..|s| - 1], c) + if s[|s| - 1] == c then 1 else 0
  }

  /** strings.Replace of the first one. */
  function ReplaceFirst(s: string, c: char, with: char): string {
    if s == "" then "" else if s[0] == c then [with] + s[1..] else [s[0]] + ReplaceFirst(s[1..], c, with)
  }

  /** The number with a point for its decimal separator and nothing between its digits. */
  function Separated(t: string): string {
    var dot, comma := LastIndex(t, '.'), LastIndex(t, ',');
    if dot >= 0 && comma >= 0 then
      if dot > comma then ReplaceAll(t, ",", "") else ReplaceFirst(ReplaceAll(t, ".", ""), ',', '.')
    else if comma >= 0 then
      if Count(t, ',') == 1 && |t| - comma - 1 != 3 then ReplaceFirst(t, ',', '.') else ReplaceAll(t, ",", "")
    else t
  }

  /** normalizeNumber: nothing when the text is no number. */
  function NormalizeNumber(h: Host, text: string): Option<string> {
    var t := ReplaceAll(ReplaceAll(Trim(h, text), " ", ""), [NON_BREAKING], "");
    if t == "" then Some("")
    else if h.parseFloat(Separated(t)).None? then None
    else Some(Separated(t))
  }

  /** normalizeNumber, as it reassigns the text. */
  method Normalize(h: Host, text: string) returns (r: Option<string>)
    ensures r == NormalizeNumber(h, text)
  {
    var t := Trim(h, text);
    t := ReplaceAll(t, " ", "");
    t := ReplaceAll(t, [NON_BREAKING], "");
    if t == "" {
      return Some("");
    }
    var lastDot, lastComma := LastIndex(t, '.'), LastIndex(t, ',');
    if lastDot >= 0 && lastComma >= 0 {
      if lastDot > lastComma {
        t := ReplaceAll(t, ",", "");
      } else {
        t := ReplaceAll(t, ".", "");
        t := ReplaceFirst(t, ',', '.');
      }
    } else if lastComma >= 0 {
      if Count(t, ',') == 1 && |t| - lastComma - 1 != 3 {
        t := ReplaceFirst(t, ',', '.');
      } else {
        t := ReplaceAll(t, ",", "");
      }
    }
    if h.parseFloat(t).None? {
      return None;
    }
    return Some(t);
  }

  // ─── Written numbers ───

  /** The text without one of its characters. */
  function Without(s: string, c: char): string {
    if s == "" then "" else (if s[0] == c then "" else [s[0]]) + Without(s[1..], c)
  }

  lemma {:induction false} ReplaceIsWithout(s: string, c: char)
    ensures ReplaceText(s, [c], "") == Without(s, c)
  {
    if s != "" {
      assert [c] <= s <==> s[0] == c;
      ReplaceIsWithout(s[1..], c);
    }
  }

  lemma {:induction false} WithoutJoined(a: string, b: string, c: char)
    ensures Without(a + b, c) == Without(a, c) + Without(b, c)
  {
    if a == "" {
      assert a + b == b;
    } else {
      assert (a + b)[1..] == a[1..] + b;
      WithoutJoined(a[1..], b, c);
    }
  }

  lemma {:induction false} WithoutNone(s: string, c: char)
    requires c !in s
    ensures Without(s, c) == s
  {
    if s != "" { WithoutNone(s[1..], c); }
  }

  /** Groups of digits with a separator between them. */
  function Join(groups: seq<string>, sep: char): string {
    if groups == [] then "" else if |groups| == 1 then groups[0] else groups[0] + [sep] + Join(groups[1..], sep)
  }

  function Concat(groups: seq<string>): string { if groups == [] then "" else groups[0] + Concat(groups[1..]) }

  predicate DigitGroups(groups: seq<string>) {
    forall i :: 0 <= i < |groups| ==> groups[i] != "" && AllDigits(groups[i])
  }

  predicate IsSign(s: string) { s in {"", "-", "+"} }

  /** A number as one of the two conventions writes it: 1,234.5 or 1.234,5. */
  function Written(sign: string, groups: seq<string>, decimals: string, sep: char, point: char): string {
    sign + Join(groups, sep) + [point] + decimals
  }

  lemma {:induction false} JoinDigits(groups: seq<string>, sep: char)
    requires DigitGroups(groups)
    ensures forall i :: 0 <= i < |Join(groups, sep)| ==>
      IsAsciiDigit(Join(groups, sep)[i]) || Join(groups, sep)[i] == sep
    ensures |groups| > 1 ==> sep in Join(groups, sep)
    ensures AllDigits(Concat(groups))
  {
    if |groups| > 1 {
      JoinDigits(groups[1..], sep);
      var j := groups[0] + [sep] + Join(groups[1..], sep);
      assert j[|groups[0]|] == sep;
    } else if |groups| == 1 {
      assert Concat(groups[1..]) == "" && groups[0] + "" == groups[0];
    }
  }

  lemma {:induction false} WithoutSeparators(groups: seq<string>, sep: char)
    requires DigitGroups(groups) && !IsAsciiDigit(sep)
    ensures Without(Join(groups, sep), sep) == Concat(groups)
  {
    if groups != [] {
      assert sep !in groups[0];
      WithoutNone(groups[0], sep);
      if |groups| == 1 {
        assert Concat(groups[1..]) == "" && groups[0] + "" == groups[0];
      } else {
        WithoutSeparators(groups[1..], sep);
        WithoutJoined(groups[0] + [sep], Join(groups[1..], sep), sep);
        WithoutJoined(groups[0], [sep], sep);
        assert Without([sep], sep) == "";
      }
    }
  }

  lemma {:induction false} ReplaceFirstAt(a: string, b: string, c: char, with: char)
    requires c !in a
    ensures ReplaceFirst(a + [c] + b, c, with) == a + [with] + b
  {
    var s := a + [c] + b;
    if a == "" {
      assert s[1..] == b;
    } else {
      assert s[1..] == a[1..] + [c] + b && s[0] == a[0];
      ReplaceFirstAt(a[1..], b, c, with);
    }
  }

  /** Where the last separator of a written number stands. */
  lemma {:induction false} LastIs(a: string, b: string, c: char)
    requires c !in b
    ensures LastIndex(a + [c] + b, c) == |a|
  {
    var s := a + [c] + b;
    if b == "" {
      assert s == a + [c];
    } else {
      assert s[..|s| - 1] == a + [c] + b[..|b| - 1] && s[|s| - 1] == b[|b| - 1];
      LastIs(a, b[..|b| - 1], c);
    }
  }

  lemma LastBefore(a: string, b: string, c: char)
    requires c in a && c !in b
    ensures 0 <= LastIndex(a + b, c) < |a|
  {
    hide LastIndex;
    var s := a + b;
    var k :| 0 <= k < |a| && a[k] == c;
    assert s[k] == c;
    forall j | |a| <= j < |s| ensures s[j] != c { assert s[j] == b[j - |a|]; }
  }

  /** Without its separators the number is its digits with the point between them. */
  lemma WrittenWithout(sign: string, groups: seq<string>, decimals: string, sep: char, point: char)
    requires IsSign(sign) && DigitGroups(groups) && AllDigits(decimals) && sep in ",." && point in ",." && sep != point
    ensures Without(Written(sign, groups, decimals, sep, point), sep) == sign + Concat(groups) + [point] + decimals
  {
    var joined, rest := Join(groups, sep), [point] + decimals;
    assert Written(sign, groups, decimals, sep, point) == sign + joined + rest;
    assert sep !in sign && sep !in rest;
    hide Without, Join, Concat, Written;
    WithoutJoined(sign + joined, rest, sep);
    WithoutJoined(sign, joined, sep);
    WithoutNone(sign, sep);
    WithoutNone(rest, sep);
    WithoutSeparators(groups, sep);
    assert sign + Concat(groups) + [point] + decimals == sign + Concat(groups) + rest;
  }

  /** The point stands after every separator. */
  lemma WrittenLast(sign: string, groups: seq<string>, decimals: string, sep: char, point: char)
    requires IsSign(sign) && DigitGroups(groups) && |groups| > 1 && AllDigits(decimals)
    requires sep in ",." && point in ",." && sep != point
    ensures var t := Written(sign, groups, decimals, sep, point); 0 <= LastIndex(t, sep) < LastIndex(t, point)
  {
    var joined, rest := Join(groups, sep), [point] + decimals;
    JoinDigits(groups, sep);
    LastIs(sign + joined, decimals, point);
    assert Written(sign, groups, decimals, sep, point) == sign + joined + [point] + decimals == sign + joined + rest;
    LastBefore(sign + joined, rest, sep);
  }

  lemma WrittenSeparated(sign: string, groups: seq<string>, decimals: string, sep: char, point: char)
    requires IsSign(sign) && DigitGroups(groups) && |groups| > 1 && AllDigits(decimals)
    requires sep in ",." && point in ",." && sep != point
    ensures Separated(Written(sign, groups, decimals, sep, point)) == sign + Concat(groups) + "." + decimals
  {
    var t := Written(sign, groups, decimals, sep, point);
    WrittenLast(sign, groups, decimals, sep, point);
    WrittenWithout(sign, groups, decimals, sep, point);
    ReplaceIsWithout(t, sep);
    JoinDigits(groups, sep);
    hide Written, Join, Without;
    assert "." == ['.'] && "," == [','];
    if point == ',' { ReplaceFirstAt(sign + Concat(groups), decimals, ',', '.'); }
  }

  // ─── Spaces ───

  function Unspaced(s: string): string { Without(Without(s, ' '), NON_BREAKING) }

  lemma UnspacedJoined(a: string, b: string)
    ensures Unspaced(a + b) == Unspaced(a) + Unspaced(b)
  {
    WithoutJoined(a, b, ' ');
    WithoutJoined(Without(a, ' '), Without(b, ' '), NON_BREAKING);
  }

  lemma UnspacedSpace(c: char)
    requires c == ' ' || c == NON_BREAKING
    ensures Unspaced([c]) == ""
  {
    assert [c][1..] == "" && Without("", ' ') == "" && Without("", NON_BREAKING) == "";
  }

  /** The only white space in the text is spaces, breaking or not. */
  predicate OnlySpaces(h: Host, s: string) {
    forall i :: 0 <= i < |s| && IsSpace(h, s[i]) ==> s[i] == ' ' || s[i] == NON_BREAKING
  }

  lemma {:induction false} TrimLeftUnspaced(h: Host, s: string)
    requires OnlySpaces(h, s)
    ensures Unspaced(TrimLeft(h, s)) == Unspaced(s) && OnlySpaces(h, TrimLeft(h, s))
  {
    if s != "" && IsSpace(h, s[0]) {
      TrimLeftUnspaced(h, s[1..]);
      UnspacedJoined([s[0]], s[1..]);
      UnspacedSpace(s[0]);
      assert s == [s[0]] + s[1..];
    }
  }

  lemma {:induction false} TrimRightUnspaced(h: Host, s: string)
    requires OnlySpaces(h, s)
    ensures Unspaced(TrimRight(h, s)) == Unspaced(s)
  {
    if s != "" && IsSpace(h, s[|s| - 1]) {
      var front, last := s[..|s| - 1], s[|s| - 1];
      TrimRightUnspaced(h, front);
      UnspacedJoined(front, [last]);
      UnspacedSpace(last);
      assert s == front + [last];
    }
  }

  lemma Unspaces(h: Host, s: string)
    requires OnlySpaces(h, s)
    ensures ReplaceAll(ReplaceAll(Trim(h, s), " ", ""), [NON_BREAKING], "") == Unspaced(s)
  {
    TrimLeftUnspaced(h, s);
    TrimRightUnspaced(h, TrimLeft(h, s));
    ReplaceIsWithout(Trim(h, s), ' ');
    ReplaceIsWithout(Without(Trim(h, s), ' '), NON_BREAKING);
  }

  /** A number written with separators between its digits and a decimal part, in either
      convention and with any spaces in it, comes back as its plain decimal text. */
  lemma NormalizeUndoesGrouping(h: Host, text: string, sign: string, groups: seq<string>, decimals: string, sep: char,
                                point: char)
    requires IsSign(sign) && DigitGroups(groups) && |groups| > 1 && AllDigits(decimals)
    requires sep in ",." && point in ",." && sep != point
    requires OnlySpaces(h, text) && Unspaced(text) == Written(sign, groups, decimals, sep, point)
    requires h.parseFloat(sign + Concat(groups) + "." + decimals).Some?
    ensures NormalizeNumber(h, text) == Some(sign + Concat(groups) + "." + decimals)
  {
    Unspaces(h, text);
    WrittenSeparated(sign, groups, decimals, sep, point);
    hide Trim, ReplaceAll, Separated, Unspaced;
  }

  lemma {:induction false} CountNone(s: string, c: char)
    requires c !in s
    ensures Count(s, c) == 0
  {
    if s != "" { CountNone(s[..|s| - 1], c); }
  }

  lemma {:induction false} CountOne(a: string, b: string, c: char)
    requires c !in a && c !in b
    ensures Count(a + [c] + b, c) == 1
  {
    var s := a + [c] + b;
    if b == "" {
      assert s[..|s| - 1] == a;
      CountNone(a, c);
    } else {
      assert s[..|s| - 1] == a + [c] + b[..|b| - 1] && s[|s| - 1] == b[|b| - 1];
      CountOne(a, b[..|b| - 1], c);
    }
  }

  /** One comma and no point: a decimal point exactly unless three digits follow it. */
  lemma LoneComma(whole: string, rest: string)
    requires ',' !in whole && ',' !in rest && '.' !in whole && '.' !in rest
    ensures Separated(whole + "," + rest) == if |rest| == 3 then whole + rest else whole + "." + rest
  {
    var t := whole + "," + rest;
    LastIs(whole, rest, ',');
    CountOne(whole, rest, ',');
    assert '.' !in t;
    if |rest| == 3 {
      ReplaceIsWithout(t, ',');
      WithoutJoined(whole + ",", rest, ',');
      WithoutJoined(whole, ",", ',');
      WithoutNone(whole, ',');
      WithoutNone(rest, ',');
      assert Without(",", ',') == "";
    } else {
      ReplaceFirstAt(whole, rest, ',', '.');
    }
  }
}
