/**
 * What the parts of an import mean: a cell of each kind, the record a row makes, the options that
 * are acceptable, and what one row does to a table, said without the program's own functions.
 */
module ImportMeaning {
  import opened Common
  import opened Evaluator
  import opened Calculations
  import opened Records
  import opened Import
  import ImportLaws
  import Numbers

  // ─── Numbers ───

  /** The last `c` comes after the last `d`, and there is one of each. */
  ghost predicate Later(u: string, c: char, d: char) {
    exists a, b :: u == a + [c] + b && d in a && c !in b && d !in b
  }

  /** The first comma made a point. */
  ghost predicate Pointed(u: string, p: string) {
    exists a, b :: u == a + "," + b && ',' !in a && p == a + "." + b
  }

  ghost predicate OneComma(u: string, a: string, b: string) { u == a + "," + b && ',' !in a && ',' !in b }

  /** There is one comma, and not just three characters behind it. */
  ghost predicate OneMark(u: string) {
    exists a, b :: OneComma(u, a, b) && |b| != 3
  }

  /** The number without its separators: where there are points and commas the last of them marks
      the decimals, and a comma alone does unless three characters follow it. */
  ghost predicate Plain(u: string, p: string) {
    if ',' !in u then p == u
    else if Later(u, '.', ',') then p == Numbers.Without(u, ',')
    else if '.' in u then Pointed(Numbers.Without(u, '.'), p)
    else if OneMark(u) then Pointed(u, p)
    else p == Numbers.Without(u, ',')
  }

  lemma SplitLast(u: string, c: char) returns (a: string, b: string)
    requires c in u
    ensures u == a + [c] + b && c !in b && |a| == Numbers.LastIndex(u, c)
  {
    var i := Numbers.LastIndex(u, c);
    assert i >= 0;
    a, b := u[..i], u[i + 1..];
  }

  lemma LaterMeans(u: string, c: char, d: char)
    requires c != d
    ensures Later(u, c, d) <==> 0 <= Numbers.LastIndex(u, d) < Numbers.LastIndex(u, c)
  {
    hide Numbers.LastIndex;
    if Later(u, c, d) {
      var a, b :| u == a + [c] + b && d in a && c !in b && d !in b;
      Numbers.LastIs(a, b, c);
      assert d !in [c] + b;
      Numbers.LastBefore(a, [c] + b, d);
      assert u == a + ([c] + b);
    }
    if 0 <= Numbers.LastIndex(u, d) < Numbers.LastIndex(u, c) {
      var a, b := SplitLast(u, c);
      var k := Numbers.LastIndex(u, d);
      assert a[k] == u[k] == d;
      forall i | 0 <= i < |b| ensures b[i] != d { assert u[|a| + 1 + i] == b[i]; }
    }
  }

  lemma {:induction false} FirstMade(u: string)
    requires ',' in u
    ensures Pointed(u, Numbers.ReplaceFirst(u, ',', '.'))
    ensures forall p :: Pointed(u, p) ==> p == Numbers.ReplaceFirst(u, ',', '.')
  {
    if k :| 0 <= k < |u| && u[k] == ',' && ',' !in u[..k] {
      var a, b := u[..k], u[k + 1..];
      assert u == a + "," + b;
      Numbers.ReplaceFirstAt(a, b, ',', '.');
      assert [','] == "," && ['.'] == ".";
    } else {
      FirstPlace(u);
    }
    forall p | Pointed(u, p) ensures p == Numbers.ReplaceFirst(u, ',', '.') {
      var a, b :| u == a + "," + b && ',' !in a && p == a + "." + b;
      Numbers.ReplaceFirstAt(a, b, ',', '.');
    }
  }

  lemma {:induction false} FirstPlace(u: string)
    requires ',' in u
    ensures exists k :: 0 <= k < |u| && u[k] == ',' && ',' !in u[..k]
  {
    if u[0] == ',' {
      assert ',' !in u[..0];
    } else {
      FirstPlace(u[1..]);
      var k :| 0 <= k < |u[1..]| && u[1..][k] == ',' && ',' !in u[1..][..k];
      assert u[..k + 1] == [u[0]] + u[1..][..k];
    }
  }

  lemma {:induction false} CountMeans(u: string)
    ensures Numbers.Count(u, ',') == 0 <==> ',' !in u
    ensures Numbers.Count(u, ',') == 1 ==> exists a, b :: OneComma(u, a, b)
  {
    if u != "" {
      var front, last := u[..|u| - 1], u[|u| - 1];
      assert u == front + [last];
      CountMeans(front);
      if last == ',' && ',' !in front {
        assert OneComma(u, front, "");
      } else if last != ',' && Numbers.Count(front, ',') == 1 {
        var a, b :| OneComma(front, a, b);
        assert a + "," + (b + [last]) == front + [last];
        assert OneComma(u, a, b + [last]);
      }
    }
  }

  lemma OneMarkMeans(u: string)
    requires ',' in u
    ensures OneMark(u) <==> Numbers.Count(u, ',') == 1 && |u| - Numbers.LastIndex(u, ',') - 1 != 3
  {
    hide Numbers.Count, Numbers.LastIndex;
    CountMeans(u);
    forall a, b | OneComma(u, a, b)
      ensures Numbers.Count(u, ',') == 1 && Numbers.LastIndex(u, ',') == |a| && |u| - |a| - 1 == |b|
    {
      assert [','] == ",";
      Numbers.CountOne(a, b, ',');
      Numbers.LastIs(a, b, ',');
    }
    hide OneComma;
  }

  lemma WithoutKeeps(u: string, c: char, d: char)
    requires c != d
    ensures d in Numbers.Without(u, c) <==> d in u
  {
  }

  lemma PlainMeans(u: string, p: string)
    ensures Plain(u, p) <==> p == Numbers.Separated(u)
  {
    hide Numbers.Count, Numbers.Without, Numbers.ReplaceFirst, ReplaceText, Later, Pointed, OneMark;
    LaterMeans(u, '.', ',');
    Numbers.ReplaceIsWithout(u, ',');
    Numbers.ReplaceIsWithout(u, '.');
    WithoutKeeps(u, '.', ',');
    assert [','] == "," && ['.'] == ".";
    if ',' in u {
      FirstMade(u);
      FirstMade(Numbers.Without(u, '.'));
      OneMarkMeans(u);
    }
  }

  // ─── Cells ───

  /** A number is stored as its plain text, if that is a number. */
  ghost predicate NumberCell(h: Host, word: string, v: Option<Stored>) {
    var u := Numbers.Unspaced(word);
    if u == "" then v == Some(StoredText(""))
    else exists p :: Plain(u, p) && v == if h.parseFloat(p).Some? then Some(StoredText(p)) else None
  }

  predicate SomeText(read: Option<string>, v: Option<Stored>) {
    match read case None => v == None case Some(t) => v == Some(StoredText(t))
  }

  /** What a word in a cell of a kind other than text stands for. */
  ghost predicate WordMeans(j: Job, t: FieldType, word: string, v: Option<Stored>) {
    match t
    case NumberField => NumberCell(j.h, word, v)
    case BooleanField =>
      var w := j.h.toLower(word);
      if w == "true" || w == "yes" || w == "y" || w == "1" || w == "t" then v == Some(StoredBool(true))
      else if w == "false" || w == "no" || w == "n" || w == "0" || w == "f" then v == Some(StoredBool(false))
      else v == None
    case DateField => SomeText(j.readers.date(j.opts.dates, word), v)
    case TimestampField => SomeText(j.readers.timestamp(word), v)
    case ContainerField => if j.readers.base64(word) then v == Some(StoredText(word)) else v == None
    case _ => false
  }

  /** Nothing between white space stands for nothing. */
  ghost predicate WordStands(j: Job, t: FieldType, word: string, v: Option<Stored>) {
    if |word| == 0 then v == Some(Null) else WordMeans(j, t, word, v)
  }

  /** What the text of a cell stands for: text for itself, white space and all, and anything else
      for what it says between its white space; a cell with nothing in it for nothing. */
  ghost predicate Stands(j: Job, t: FieldType, text: string, v: Option<Stored>) {
    if t.TextField? || t.SummaryField? then v == Some(if |text| == 0 then Null else StoredText(text))
    else exists word :: Surrounds(j.h, text, word) && WordStands(j, t, word, v)
  }

  lemma NumberMeans(h: Host, word: string, v: Option<Stored>)
    requires word != "" && Common.Trim(h, word) == word
    ensures NumberCell(h, word, v) <==> SomeText(Numbers.NormalizeNumber(h, word), v)
  {
    var u := Numbers.Unspaced(word);
    Numbers.ReplaceIsWithout(word, ' ');
    Numbers.ReplaceIsWithout(Numbers.Without(word, ' '), Numbers.NON_BREAKING);
    assert [' '] == " ";
    hide Common.Trim, Plain, Numbers.Separated, ReplaceText, Numbers.Without;
    forall p ensures Plain(u, p) <==> p == Numbers.Separated(u) { PlainMeans(u, p); }
  }

  lemma WordCoerced(j: Job, t: FieldType, text: string, word: string, v: Option<Stored>)
    requires !t.TextField? && !t.SummaryField? && word == Common.Trim(j.h, text) && Common.Trim(j.h, word) == word
    ensures WordStands(j, t, word, v) <==> v == Coerce(j, t, text)
  {
    if word != "" && t.NumberField? { NumberMeans(j.h, word, v); }
    hide Common.Trim, NumberCell, Numbers.NormalizeNumber;
  }

  /** Every kind of cell is read as what it stands for. */
  lemma CoerceMeans(j: Job, t: FieldType, text: string, v: Option<Stored>)
    ensures Stands(j, t, text, v) <==> v == Coerce(j, t, text)
  {
    if !t.TextField? && !t.SummaryField? {
      hide Common.Trim, Surrounds, WordStands, Coerce;
      var word := Common.Trim(j.h, text);
      forall w ensures Surrounds(j.h, text, w) <==> w == word { TrimSurrounds(j.h, text, w); }
      TrimmedAgain(j.h, text);
      WordCoerced(j, t, text, word, v);
    }
  }

  lemma TrimmedAgain(h: Host, text: string)
    ensures Common.Trim(h, Common.Trim(h, text)) == Common.Trim(h, text)
  {
    var word := Common.Trim(h, text);
    TrimSurrounds(h, text, word);
    if word != "" {
      assert word[0..|word|] == word && Blank(h, word[..0]) && Blank(h, word[|word|..]);
      assert SetBetween(h, word, word, 0, |word|);
    } else {
      assert SetBetween(h, word, word, 0, 0);
    }
    TrimSurrounds(h, word, word);
  }

  // ─── The record of a row ───

  /** The text of a cell; one beyond the end of its row is empty. */
  predicate HoldsText(s: Source, row: nat, column: int, text: string) {
    if row < |s.rows| && 0 <= column < |s.rows[row]| then text == s.rows[row][column] else text == ""
  }

  /** The field a mapping names between white space; without a name it is passed over. */
  ghost predicate MapsTo(j: Job, m: Mapping, field: string) { field != "" && Surrounds(j.h, m.field, field) }

  /** The cell of a mapping stands for this value of its field, or for none. */
  ghost predicate CellGives(j: Job, row: nat, m: Mapping, field: string, v: Option<Stored>) {
    && MapsTo(j, m, field) && field in j.types
    && exists text :: HoldsText(j.source, row, m.column, text) && Stands(j, j.types[field], text, v)
  }

  lemma MappedField(j: Job, m: Mapping)
    ensures forall field :: MapsTo(j, m, field) <==> field != "" && field == FieldOf(j, m)
  {
    forall field ensures Surrounds(j.h, m.field, field) <==> FieldOf(j, m) == field {
      TrimSurrounds(j.h, m.field, field);
    }
    hide Surrounds, FieldOf;
  }

  lemma CellMeans(j: Job, row: nat, m: Mapping, v: Option<Stored>)
    requires FieldOf(j, m) != "" && FieldOf(j, m) in j.types
    ensures CellGives(j, row, m, FieldOf(j, m), v) <==>
      v == Coerce(j, TypeOf(j, FieldOf(j, m)), Cell(j.source, row, m.column))
  {
    var text := Cell(j.source, row, m.column);
    MappedField(j, m);
    CoerceMeans(j, j.types[FieldOf(j, m)], text, v);
    hide MapsTo, Stands, Coerce, FieldOf;
    assert forall t :: HoldsText(j.source, row, m.column, t) <==> t == text;
  }

  /** The record holds what the cells of its mappings give, and nothing else. */
  ghost predicate ReadsAs(j: Job, row: nat, mappings: seq<Mapping>, r: Record) {
    && (forall i, f :: 0 <= i < |mappings| && MapsTo(j, mappings[i], f) ==>
         f in r && CellGives(j, row, mappings[i], f, Some(r[f])))
    && forall f :: f in r ==> exists i :: 0 <= i < |mappings| && MapsTo(j, mappings[i], f)
  }

  /** The cell of this mapping is the first that stands for nothing its field could hold. */
  ghost predicate FirstBad(j: Job, row: nat, mappings: seq<Mapping>, i: int, e: ImportError) {
    && 0 <= i < |mappings| && e == BadCell(row, mappings[i].column)
    && (exists f :: CellGives(j, row, mappings[i], f, None))
    && forall k, f :: 0 <= k < i ==> !CellGives(j, row, mappings[k], f, None)
  }

  /** Some mapping up to the last is to this field. */
  ghost predicate Mapped(j: Job, mappings: seq<Mapping>, field: string) {
    exists i :: 0 <= i < |mappings| && MapsTo(j, mappings[i], field)
  }

  lemma MappedMore(j: Job, front: seq<Mapping>, m: Mapping)
    ensures forall f :: Mapped(j, front + [m], f) <==> Mapped(j, front, f) || MapsTo(j, m, f)
  {
    hide MapsTo;
    var all := front + [m];
    forall f ensures Mapped(j, all, f) <==> Mapped(j, front, f) || MapsTo(j, m, f) {
      if i :| 0 <= i < |front| && MapsTo(j, front[i], f) { assert MapsTo(j, all[i], f); }
      if MapsTo(j, m, f) { assert MapsTo(j, all[|front|], f); }
    }
  }

  /** What is written are the fields mapped to. */
  lemma {:induction false} WrittenMapped(j: Job, mappings: seq<Mapping>)
    requires Import.Written(j, mappings).Ok?
    ensures forall f :: f in Import.Written(j, mappings).value <==> Mapped(j, mappings, f)
  {
    if mappings != [] {
      var front, m := mappings[..|mappings| - 1], mappings[|mappings| - 1];
      WrittenMapped(j, front);
      assert mappings == front + [m];
      MappedField(j, m);
      MappedMore(j, front, m);
      hide MapsTo, FieldOf, Mapped;
    }
  }

  /** A cell gives its one value, to its one field. */
  lemma OneCell(j: Job, row: nat, m: Mapping)
    requires FieldOf(j, m) == "" || FieldOf(j, m) in j.types
    ensures forall f, v :: CellGives(j, row, m, f, v) <==>
      f == FieldOf(j, m) != "" && v == Coerce(j, TypeOf(j, f), Cell(j.source, row, m.column))
  {
    MappedField(j, m);
    forall f, v ensures CellGives(j, row, m, f, v) <==>
      f == FieldOf(j, m) != "" && v == Coerce(j, TypeOf(j, f), Cell(j.source, row, m.column))
    {
      if f == FieldOf(j, m) != "" { CellMeans(j, row, m, v); }
    }
    hide MapsTo, Stands, Coerce, FieldOf;
  }

  lemma ReadsMore(j: Job, row: nat, front: seq<Mapping>, m: Mapping, r: Record, r': Record)
    requires ReadsAs(j, row, front, r)
    requires forall f :: MapsTo(j, m, f) ==> f !in r && f in r' && CellGives(j, row, m, f, Some(r'[f]))
    requires forall f :: f in r' <==> f in r || MapsTo(j, m, f)
    requires forall f :: f in r ==> r'[f] == r[f]
    ensures ReadsAs(j, row, front + [m], r')
  {
    hide MapsTo, CellGives;
    var all := front + [m];
    forall i, f | 0 <= i < |all| && MapsTo(j, all[i], f) ensures f in r' && CellGives(j, row, all[i], f, Some(r'[f])) {
      if i < |front| { assert MapsTo(j, front[i], f); }
    }
    forall f | f in r' ensures exists i :: 0 <= i < |all| && MapsTo(j, all[i], f) {
      if f in r {
        var i :| 0 <= i < |front| && MapsTo(j, front[i], f);
        assert MapsTo(j, all[i], f);
      } else {
        assert MapsTo(j, all[|front|], f);
      }
    }
  }

  /** No cell of these mappings stands for nothing its field could hold. */
  ghost predicate NoneBad(j: Job, row: nat, mappings: seq<Mapping>) {
    forall k, f :: 0 <= k < |mappings| ==> !CellGives(j, row, mappings[k], f, None)
  }

  lemma BadMore(j: Job, row: nat, front: seq<Mapping>, m: Mapping)
    ensures forall i, e :: FirstBad(j, row, front, i, e) ==> FirstBad(j, row, front + [m], i, e)
    ensures NoneBad(j, row, front) && (exists f :: CellGives(j, row, m, f, None)) ==>
      FirstBad(j, row, front + [m], |front|, BadCell(row, m.column))
    ensures NoneBad(j, row, front) && !(exists f :: CellGives(j, row, m, f, None)) ==> NoneBad(j, row, front + [m])
  {
    hide CellGives;
    var all := front + [m];
    assert all[|front|] == m && forall k :: 0 <= k < |front| ==> all[k] == front[k];
  }

  /**
   * The record of a row holds what its mapped cells stand for and nothing else, and there is one
   * exactly if each of them stands for something its field can hold; if not, the first is named.
   */
  lemma {:induction false} ReadMeans(j: Job, row: nat, mappings: seq<Mapping>)
    requires Import.Written(j, mappings).Ok?
    ensures match Read(j, row, mappings)
      case Ok(r) => ReadsAs(j, row, mappings, r) && NoneBad(j, row, mappings)
      case Err(e) => exists i :: FirstBad(j, row, mappings, i, e)
  {
    hide CellGives, MapsTo, Coerce, Cell, FieldOf, FirstBad, NoneBad, ReadsAs;
    if mappings == [] {
      NothingRead(j, row);
    } else {
      var front, m := mappings[..|mappings| - 1], mappings[|mappings| - 1];
      assert mappings == front + [m];
      ReadMeans(j, row, front);
      MappedField(j, m);
      OneCell(j, row, m);
      BadMore(j, row, front, m);
      var before := Read(j, row, front);
      if before.Err? {
        var i :| FirstBad(j, row, front, i, before.error);
        assert Read(j, row, mappings) == before;
        assert FirstBad(j, row, front + [m], i, before.error);
        assert FirstBad(j, row, mappings, i, Read(j, row, mappings).error);
      } else if Read(j, row, mappings).Ok? {
        NewField(j, row, front, m, before.value);
        ReadsMore(j, row, front, m, before.value, Read(j, row, mappings).value);
      } else {
        assert CellGives(j, row, m, FieldOf(j, m), None);
        assert FirstBad(j, row, front + [m], |front|, BadCell(row, m.column));
        assert Read(j, row, mappings) == Err(BadCell(row, m.column));
        assert FirstBad(j, row, mappings, |front|, Read(j, row, mappings).error);
      }
    }
  }

  lemma NothingRead(j: Job, row: nat)
    ensures ReadsAs(j, row, [], map[]) && NoneBad(j, row, [])
  {
  }

  lemma NewField(j: Job, row: nat, front: seq<Mapping>, m: Mapping, r: Record)
    requires Import.Written(j, front + [m]).Ok? && ReadsAs(j, row, front, r)
    ensures FieldOf(j, m) != "" ==> FieldOf(j, m) !in r
  {
    var all := front + [m];
    assert all[..|all| - 1] == front && all[|all| - 1] == m;
    WrittenMapped(j, front);
    hide CellGives, MapsTo, FieldOf;
    assert FieldOf(j, m) in r ==> Mapped(j, front, FieldOf(j, m));
  }

  // ─── The options ───

  /** The mapping is to a column there is and a field that can be written. */
  ghost predicate GoodMapping(j: Job, m: Mapping) {
    forall f :: MapsTo(j, m, f) ==> 0 <= m.column < |j.source.columns| && f in j.types && !j.types[f].SummaryField?
  }

  /** No field is mapped to twice. */
  ghost predicate MappedOnce(j: Job, mappings: seq<Mapping>) {
    forall i, k, f :: 0 <= i < k < |mappings| && MapsTo(j, mappings[i], f) ==> !MapsTo(j, mappings[k], f)
  }

  ghost predicate GoodMappings(j: Job, mappings: seq<Mapping>) {
    (forall i :: 0 <= i < |mappings| ==> GoodMapping(j, mappings[i])) && MappedOnce(j, mappings)
  }

  /** An import adds or updates, maps something, and updates by fields it maps. */
  ghost predicate Acceptable(j: Job) {
    && (j.opts.action == Add || j.opts.action == UpdateMatching)
    && GoodMappings(j, j.opts.mappings) && (exists f :: Mapped(j, j.opts.mappings, f))
    && (j.opts.action == UpdateMatching ==>
        && j.opts.matchFields != []
        && forall f :: f in j.opts.matchFields ==> f in j.types && Mapped(j, j.opts.mappings, f))
  }

  lemma GoodMore(j: Job, front: seq<Mapping>, m: Mapping)
    ensures GoodMappings(j, front + [m]) <==>
      GoodMappings(j, front) && GoodMapping(j, m) && forall f :: MapsTo(j, m, f) ==> !Mapped(j, front, f)
  {
    hide MapsTo, GoodMapping;
    var all := front + [m];
    assert all[|front|] == m && forall k :: 0 <= k < |front| ==> all[k] == front[k];
    if GoodMappings(j, all) {
      forall i, k, f | 0 <= i < k < |front| && MapsTo(j, front[i], f) ensures !MapsTo(j, front[k], f) {
        assert MapsTo(j, all[i], f);
        assert !MapsTo(j, all[k], f);
      }
      forall f, i | MapsTo(j, m, f) && 0 <= i < |front| ensures !MapsTo(j, front[i], f) {
        assert MapsTo(j, all[|front|], f);
        assert !MapsTo(j, all[i], f);
      }
    }
  }

  lemma GoodMappingMeans(j: Job, m: Mapping)
    ensures var f := FieldOf(j, m);
      GoodMapping(j, m) <==>
        f == "" || (0 <= m.column < |j.source.columns| && f in j.types && !j.types[f].SummaryField?)
  {
    MappedField(j, m);
    hide MapsTo, FieldOf;
    if FieldOf(j, m) != "" { assert MapsTo(j, m, FieldOf(j, m)); }
  }

  lemma {:induction false} MappingsMean(j: Job, mappings: seq<Mapping>)
    ensures Import.Written(j, mappings).Ok? <==> GoodMappings(j, mappings)
    ensures Import.Written(j, mappings).Ok? ==> Distinct(Import.Written(j, mappings).value)
  {
    if mappings == [] {
      assert Import.Written(j, mappings) == Ok([]);
    } else {
      var front, m := mappings[..|mappings| - 1], mappings[|mappings| - 1];
      assert mappings == front + [m];
      MappingsMean(j, front);
      GoodMore(j, front, m);
      GoodMappingMeans(j, m);
      MappedField(j, m);
      if Import.Written(j, front).Ok? { WrittenMapped(j, front); }
      hide MapsTo, FieldOf, GoodMapping, GoodMappings, Mapped;
      var f := FieldOf(j, m);
      assert f != "" ==> MapsTo(j, m, f);
    }
  }

  lemma {:induction false} MatchFieldsMean(j: Job, fields: seq<string>, written: seq<string>)
    ensures MatchFieldError(j, fields, written).None? <==> forall f :: f in fields ==> f in j.types && f in written
  {
    if fields != [] {
      MatchFieldsMean(j, fields[1..], written);
      assert fields == [fields[0]] + fields[1..];
    }
  }

  /** The options of an import are taken exactly if they are acceptable; what is written then are
      the fields mapped to, each once. */
  lemma OptionsMean(j: Job)
    ensures CheckedOptions(j).Ok? <==> Acceptable(j)
    ensures CheckedOptions(j).Ok? ==>
      var w := CheckedOptions(j).value; Distinct(w) && forall f :: f in w <==> Mapped(j, j.opts.mappings, f)
  {
    MappingsMean(j, j.opts.mappings);
    var written := Import.Written(j, j.opts.mappings);
    if written.Ok? {
      WrittenMapped(j, j.opts.mappings);
      MatchFieldsMean(j, j.opts.matchFields, written.value);
      if written.value != [] { assert written.value[0] in written.value; }
    }
    hide Import.Written, GoodMappings, Mapped, MatchFieldError;
  }

  // ─── One row ───

  /** The text a value is matched by. */
  predicate MatchText(j: Job, v: Stored, s: string) {
    match v
    case Null => s == ""
    case StoredText(t) => s == t
    case StoredBool(b) => s == if b then "true" else "false"
    case _ => s == j.asText(v)
  }

  /** Every match field of the record has something in it. */
  predicate FullKey(j: Job, r: Record) {
    forall f :: f in j.opts.matchFields ==> f in r && !MatchText(j, r[f], "")
  }

  /** The row has in every match field what the record has, without regard to case. */
  ghost predicate SameKey(j: Job, row: Record, r: Record) {
    forall f :: f in j.opts.matchFields ==>
      f in row && row[f] != Null && f in r
      && exists s :: MatchText(j, r[f], s) && j.lower(j.asText(row[f])) == j.lower(s)
  }

  /** There are such rows for the record. */
  ghost predicate Matches(j: Job, rows: Rows, r: Record, id: string) {
    j.opts.action == UpdateMatching && FullKey(j, r) && id in rows && SameKey(j, rows[id], r)
  }

  /** The row with what the record has, but its id. */
  ghost predicate Overlaid(row: Record, r: Record, after: Record) {
    && (forall f :: f in after <==> f in row || (f in r && f != "id"))
    && forall f :: f in after ==> after[f] == if f in r && f != "id" then r[f] else row[f]
  }

  /** A new row with every field of the table, the id it is given and what the record has. */
  ghost predicate Fresh(j: Job, r: Record, id: string, after: Record) {
    && (forall f :: f in after <==> f in j.types)
    && forall f :: f in after ==> after[f] == if f == "id" then StoredText(id) else if f in r then r[f] else Null
  }

  /** The table with this row under this id, and nothing else changed. */
  ghost predicate OnlyAt(rows: Rows, id: string, rows': Rows) {
    && (forall k :: k in rows' <==> k in rows || k == id)
    && forall k :: k in rows' && k != id ==> rows'[k] == rows[k]
  }

  /** What a row of the file does with the record it makes. */
  ghost predicate RowAnswer(j: Job, id: string, p: Progress, p': Progress, r: Record) {
    if exists k :: Matches(j, p.rows, r, k) then
      && p'.updated == p.updated + 1 && p'.added == p.added && p'.skipped == p.skipped
      && exists k :: Matches(j, p.rows, r, k) && OnlyAt(p.rows, k, p'.rows) && Overlaid(p.rows[k], r, p'.rows[k])
    else if j.opts.action == UpdateMatching && !j.opts.addUnmatched then
      p' == p.(skipped := p.skipped + 1)
    else
      && id !in p.rows && OnlyAt(p.rows, id, p'.rows) && Fresh(j, r, id, p'.rows[id])
      && p'.added == p.added + 1 && p'.updated == p.updated && p'.skipped == p.skipped
  }

  ghost predicate PicksOne(j: Job) { forall rows: Rows, s: set<string> :: s != {} ==> j.pick(rows, s) in s }

  lemma KeyMeans(j: Job, r: Record)
    ensures FullKey(j, r) <==> !EmptyKey(j, r)
  {
    if !EmptyKey(j, r) {
      forall f | f in j.opts.matchFields ensures f in r && !MatchText(j, r[f], "") {
        assert Import.Printed(j, ReadField(r, f)) != "";
      }
    }
  }

  lemma SameKeyMeans(j: Job, row: Record, r: Record)
    requires FullKey(j, r)
    ensures SameKey(j, row, r) <==> RowMatches(j, row, r)
  {
    forall f | f in j.opts.matchFields
      ensures FieldMatches(j, row, r, f) <==>
        f in row && row[f] != Null && f in r
        && exists s :: MatchText(j, r[f], s) && j.lower(j.asText(row[f])) == j.lower(s)
    {
      assert MatchText(j, r[f], Import.Printed(j, r[f]));
    }
  }

  lemma MatchedMeans(j: Job, rows: Rows, r: Record)
    requires PicksOne(j) && "" !in rows
    ensures var id := if j.opts.action.UpdateMatching? then FindMatching(j, rows, r) else "";
      if exists k :: Matches(j, rows, r, k) then Matches(j, rows, r, id) else id == ""
  {
    KeyMeans(j, r);
    if FullKey(j, r) {
      forall k | k in rows ensures SameKey(j, rows[k], r) <==> RowMatches(j, rows[k], r) {
        SameKeyMeans(j, rows[k], r);
      }
    }
    hide FullKey, SameKey, RowMatches, EmptyKey;
    var s := Matching(j, rows, r);
    forall k ensures FullKey(j, r) ==> (k in s <==> k in rows && SameKey(j, rows[k], r)) {}
    if s != {} { assert j.pick(rows, s) in s; }
    var id := if j.opts.action.UpdateMatching? then FindMatching(j, rows, r) else "";
    if k :| Matches(j, rows, r, k) {
      assert k in s && id == j.pick(rows, s);
      assert Matches(j, rows, r, id);
    } else if j.opts.action.UpdateMatching? && FullKey(j, r) {
      forall k | k in rows ensures k !in s { assert !Matches(j, rows, r, k); }
      assert s == {};
    }
  }

  lemma UpdatedIsOverlaid(row: Record, r: Record)
    ensures Overlaid(row, r, UpdatedRow(row, r))
  {
  }

  lemma AddedIsFresh(j: Job, r: Record, id: string)
    requires "id" in j.types
    ensures Fresh(j, r, id, AddedRow(j, r, id))
  {
  }

  lemma SetAt(rows: Rows, id: string, row: Record)
    ensures OnlyAt(rows, id, rows[id := row])
  {
  }

  /** A row updates a row of its key with all it holds but the id, is passed over, or is added with
      every field of the table, as the options say and whether it has a match. */
  lemma RowMeans(j: Job, newId: nat -> string, p: Progress, row: nat)
    requires AllWellFormed(j.cs) && PicksOne(j) && "" !in p.rows && "id" in j.types
    requires ImportRow(j, newId, p, row).Ok?
    ensures RowRecord(j, row).Ok?
    ensures RowAnswer(j, newId(row), p, ImportRow(j, newId, p, row).value, RowRecord(j, row).value)
  {
    ImportLaws.RowCases(j, newId, p, row);
    var r := RowRecord(j, row).value;
    MatchedMeans(j, p.rows, r);
    var id := if j.opts.action.UpdateMatching? then FindMatching(j, p.rows, r) else "";
    if id in p.rows {
      UpdatedIsOverlaid(p.rows[id], r);
      SetAt(p.rows, id, UpdatedRow(p.rows[id], r));
    }
    AddedIsFresh(j, r, newId(row));
    SetAt(p.rows, newId(row), AddedRow(j, r, newId(row)));
    hide RowRecord, FindMatching, SameKey, FullKey, ImportRow, UpdatedRow, AddedRow, Overlaid, Fresh, OnlyAt;
  }
}
