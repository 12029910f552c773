/**
 * The checks of the spectroscopy data loader, from the point where a CSV file has been
 * read into a table: column-name normalisation, the required-column check, and the
 * screening for implausible values (warnings only).
 */
module LoaderChecks {
  import opened RealSeqs
  import opened Frames

  // ---------------------------------------------------------------------------
  // Column names
  // ---------------------------------------------------------------------------

  predicate IsUpper(c: char)
  {
    'A' <= c <= 'Z'
  }

  /** The ASCII characters Python's `str.strip()` removes: space, \t \n \v \f \r and \x1c..\x1f. */
  predicate IsSpace(c: char)
  {
    c == ' ' || 9 <= c as int <= 13 || 28 <= c as int <= 31
  }

  function LowerChar(c: char): (r: char)
    ensures !IsUpper(r)
    ensures IsUpper(c) ==> r as int == c as int + 32
    ensures !IsUpper(c) ==> r == c
  {
    if IsUpper(c) then (c as int + 32) as char else c
  }

  /** `str.lower()` on ASCII letters. */
  function Lower(s: string): (r: string)
    ensures |r| == |s| && forall i :: 0 <= i < |s| ==> r[i] == LowerChar(s[i])
  {
    seq(|s|, i requires 0 <= i < |s| => LowerChar(s[i]))
  }

  /** The first position at or after `i` that does not hold white space, or `|s|`. */
  function SkipSpace(s: string, i: nat): (j: nat)
    requires i <= |s|
    ensures i <= j <= |s|
    ensures forall k :: i <= k < j ==> IsSpace(s[k])
    ensures j == |s| || !IsSpace(s[j])
    decreases |s| - i
  {
    if i < |s| && IsSpace(s[i]) then SkipSpace(s, i + 1) else i
  }

  /** The position just past the last character before `j` that is not white space, or 0. */
  function SkipSpaceBack(s: string, j: nat): (i: nat)
    requires j <= |s|
    ensures i <= j
    ensures forall k :: i <= k < j ==> IsSpace(s[k])
    ensures i == 0 || !IsSpace(s[i - 1])
  {
    if j > 0 && IsSpace(s[j - 1]) then SkipSpaceBack(s, j - 1) else j
  }

  /** Neither end of `s` is white space. */
  predicate Trimmed(s: string)
  {
    s == [] || (!IsSpace(s[0]) && !IsSpace(s[|s| - 1]))
  }

  /**
   * `str.strip()`: what is left between the leading and the trailing white space;
   * nothing when `s` is all white space.
   */
  function Strip(s: string): (r: string)
    ensures Trimmed(r)
    ensures Trimmed(s) ==> r == s
  {
    var first := SkipSpace(s, 0);
    var end := SkipSpaceBack(s, |s|);
    if first < end then s[first..end] else []
  }

  /** What `strip` cuts off, on either side, is white space; what it keeps is an infix. */
  lemma StripInfix(s: string)
    ensures var p := SkipSpace(s, 0);
      && p + |Strip(s)| <= |s| && Strip(s) == s[p..p + |Strip(s)|]
      && (forall k :: 0 <= k < p ==> IsSpace(s[k]))
      && (forall k :: p + |Strip(s)| <= k < |s| ==> IsSpace(s[k]))
  {
    var p := SkipSpace(s, 0);
    var end := SkipSpaceBack(s, |s|);
    if p < |s| {
      assert !IsSpace(s[p]);
      assert p < end;
    }
  }

  /** `str.replace(' ', '_')`. */
  function ReplaceSpaces(s: string): (r: string)
    ensures |r| == |s|
    ensures forall i :: 0 <= i < |s| ==> r[i] == (if s[i] == ' ' then '_' else s[i])
  {
    seq(|s|, i requires 0 <= i < |s| => if s[i] == ' ' then '_' else s[i])
  }

  /** The normalised name of one column: lower-cased, stripped, spaces turned into '_'. */
  function NormalizeColumn(name: string): string
  {
    ReplaceSpaces(Strip(Lower(name)))
  }

  /** What normalisation leaves: no space, no upper-case letter, no white space at either end. */
  ghost predicate Normalized(s: string)
  {
    && (forall i :: 0 <= i < |s| ==> s[i] != ' ' && !IsUpper(s[i]))
    && Trimmed(s)
  }

  /**
   * A normalised name holds no space and no upper-case letter and has no white space
   * at either end; normalising it again changes nothing.
   */
  lemma NormalizeColumnProperties(name: string)
    ensures Normalized(NormalizeColumn(name))
    ensures NormalizeColumn(NormalizeColumn(name)) == NormalizeColumn(name)
  {
    StripKeepsLower(Lower(name));
    ReplaceNormalizes(Strip(Lower(name)));
    NormalizedIsFixed(NormalizeColumn(name));
  }

  /** Stripping a lower-cased string introduces no upper-case letter. */
  lemma StripKeepsLower(s: string)
    requires forall i :: 0 <= i < |s| ==> !IsUpper(s[i])
    ensures forall i :: 0 <= i < |Strip(s)| ==> !IsUpper(Strip(s)[i])
  {
    var p := SkipSpace(s, 0);
    var r := Strip(s);
    StripInfix(s);
    forall i | 0 <= i < |r|
      ensures !IsUpper(r[i])
    {
      assert r[i] == s[p + i];
    }
  }

  /** Replacing the spaces of a trimmed lower-case string yields a normalised one. */
  lemma ReplaceNormalizes(s: string)
    requires Trimmed(s) && forall i :: 0 <= i < |s| ==> !IsUpper(s[i])
    ensures Normalized(ReplaceSpaces(s))
  {
    var r := ReplaceSpaces(s);
    if s != [] {
      assert r[0] == s[0] && r[|r| - 1] == s[|s| - 1];
    }
  }

  /** Normalisation leaves an already normalised name unchanged. */
  lemma NormalizedIsFixed(s: string)
    requires Normalized(s)
    ensures NormalizeColumn(s) == s
  {
    assert Lower(s) == s by {
      forall i | 0 <= i < |s|
        ensures Lower(s)[i] == s[i]
      {
        assert !IsUpper(s[i]);
      }
    }
    assert ReplaceSpaces(s) == s by {
      forall i | 0 <= i < |s|
        ensures ReplaceSpaces(s)[i] == s[i]
      {
        assert s[i] != ' ';
      }
    }
  }

  /** `df.columns.str.lower().str.strip().str.replace(' ', '_')`. */
  function NormalizeColumns(columns: seq<string>): (r: seq<string>)
    ensures |r| == |columns|
    ensures forall j :: 0 <= j < |columns| ==> r[j] == NormalizeColumn(columns[j])
  {
    seq(|columns|, j requires 0 <= j < |columns| => NormalizeColumn(columns[j]))
  }

  // ---------------------------------------------------------------------------
  // Required columns
  // ---------------------------------------------------------------------------

  const REQUIRED_COLUMNS: seq<string> := ["wavelength_nm", "transmission_percent", "material_type"]

  ghost predicate HasRequired(columns: seq<string>)
  {
    forall c :: c in REQUIRED_COLUMNS ==> c in columns
  }

  /** `set(REQUIRED_COLUMNS) - set(df.columns)`: empty exactly when all three are present. */
  function MissingRequired(columns: seq<string>): (m: set<string>)
    ensures forall c :: c in m <==> c in REQUIRED_COLUMNS && c !in columns
    ensures m == {} <==> HasRequired(columns)
  {
    var m := set c | c in REQUIRED_COLUMNS && c !in columns;
    assert m == {} ==> HasRequired(columns) by {
      if m == {} {
        forall c | c in REQUIRED_COLUMNS
          ensures c in columns
        {
          assert c !in m;
        }
      }
    }
    m
  }

  // ---------------------------------------------------------------------------
  // Validation
  // ---------------------------------------------------------------------------

  const MIN_WAVELENGTH_NM: real := 190.0
  const MAX_WAVELENGTH_NM: real := 25000.0
  const MIN_TRANSMISSION: real := 0.0
  const MAX_TRANSMISSION: real := 100.0

  /** The warnings `_validate_data` records; its messages' number formatting is not modelled. */
  datatype ValidationWarning =
    | WavelengthBelowRange(minimum: real)
    | WavelengthAboveRange(maximum: real)
    | NegativeTransmission(minimum: real)
    | TransmissionAboveRange(maximum: real)
    | NanValues(column: string, count: nat)

  /** A column the range checks can compare: numbers and missing cells only. */
  predicate NoText(c: seq<Cell>)
  {
    forall i :: 0 <= i < |c| ==> !c[i].Text?
  }

  /** A table with the required columns whose two measured columns hold no text. */
  ghost predicate Validatable(df: Frame)
  {
    && df.WellFormed()
    && HasRequired(df.columns)
    && NoText(Column(df, "wavelength_nm"))
    && NoText(Column(df, "transmission_percent"))
  }

  /**
   * The range warnings. pandas' `min`/`max` skip missing cells and give NaN for a column
   * with no number, and every comparison with NaN is false: no warning then.
   */
  function RangeWarnings(wavelengths: seq<real>, transmissions: seq<real>): seq<ValidationWarning>
  {
    Check(|wavelengths| > 0 && Min(wavelengths) < MIN_WAVELENGTH_NM,
      WavelengthBelowRange(if |wavelengths| > 0 then Min(wavelengths) else 0.0))
    + Check(|wavelengths| > 0 && Max(wavelengths) > MAX_WAVELENGTH_NM,
      WavelengthAboveRange(if |wavelengths| > 0 then Max(wavelengths) else 0.0))
    + Check(|transmissions| > 0 && Min(transmissions) < MIN_TRANSMISSION,
      NegativeTransmission(if |transmissions| > 0 then Min(transmissions) else 0.0))
    + Check(|transmissions| > 0 && Max(transmissions) > MAX_TRANSMISSION,
      TransmissionAboveRange(if |transmissions| > 0 then Max(transmissions) else 0.0))
  }

  /** Appending four pieces one by one is appending their concatenation. */
  lemma AppendFour<T>(base: seq<T>, a: seq<T>, b: seq<T>, c: seq<T>, d: seq<T>)
    ensures base + a + b + c + d == base + (a + b + c + d)
  {
  }

  /** The warning of one check, recorded when the check fires. */
  function Check(fires: bool, w: ValidationWarning): (r: seq<ValidationWarning>)
    ensures |r| <= 1 && forall k :: 0 <= k < |r| ==> r[k] == w
  {
    if fires then [w] else []
  }

  /** One warning per listed column that has missing cells, in the order listed. */
  function NanWarnings(df: Frame, columns: seq<string>): (w: seq<ValidationWarning>)
    requires df.WellFormed() && forall c :: c in columns ==> c in df.columns
    ensures |w| <= |columns|
  {
    if columns == [] then []
    else
      var init := columns[..|columns| - 1];
      var c := columns[|columns| - 1];
      assert columns == init + [c];
      var n := CountMissing(Column(df, c));
      NanWarnings(df, init) + (if n > 0 then [NanValues(c, n)] else [])
  }

  /**
   * Every NaN warning names a listed column with a positive count of missing cells and
   * carries that count, and every such column has a warning.
   */
  lemma {:induction false} NanWarningsRules(df: Frame, columns: seq<string>)
    requires df.WellFormed() && forall c :: c in columns ==> c in df.columns
    ensures forall k :: 0 <= k < |NanWarnings(df, columns)| ==>
      && NanWarnings(df, columns)[k].NanValues?
      && NanWarnings(df, columns)[k].column in columns
      && NanWarnings(df, columns)[k].count == CountMissing(Column(df, NanWarnings(df, columns)[k].column)) > 0
    ensures forall c :: c in columns && CountMissing(Column(df, c)) > 0 ==>
      NanValues(c, CountMissing(Column(df, c))) in NanWarnings(df, columns)
  {
    if columns != [] {
      var init := columns[..|columns| - 1];
      var c := columns[|columns| - 1];
      assert columns == init + [c];
      NanWarningsRules(df, init);
    }
  }

  /**
   * The NaN warnings among `w` name listed columns in the order of the list, so for a
   * list without repetition no column is reported twice.
   */
  ghost predicate NanOrdered(w: seq<ValidationWarning>, columns: seq<string>)
  {
    forall k, l :: 0 <= k < l < |w| && w[k].NanValues? && w[l].NanValues? ==>
      w[k].column in columns && w[l].column in columns
      && IndexOf(columns, w[k].column) < IndexOf(columns, w[l].column)
  }

  /** NaN warnings over some columns do not name a column listed after them. */
  ghost predicate NanNamesListed(w: seq<ValidationWarning>, columns: seq<string>)
  {
    forall k :: 0 <= k < |w| && w[k].NanValues? ==> w[k].column in columns
  }

  lemma NanOrderedExtend(w: seq<ValidationWarning>, init: seq<string>, c: string)
    requires NanOrdered(w, init) && NanNamesListed(w, init)
    ensures NanOrdered(w, init + [c])
  {
    forall k, l | 0 <= k < l < |w| && w[k].NanValues? && w[l].NanValues?
      ensures w[k].column in init + [c] && w[l].column in init + [c]
              && IndexOf(init + [c], w[k].column) < IndexOf(init + [c], w[l].column)
    {
      IndexOfExtend(init, c, w[k].column);
      IndexOfExtend(init, c, w[l].column);
    }
  }

  lemma NanOrderedSnoc(w: seq<ValidationWarning>, init: seq<string>, c: string, n: nat)
    requires NanOrdered(w, init) && NanNamesListed(w, init) && c !in init
    ensures NanOrdered(w + [NanValues(c, n)], init + [c])
  {
    NanOrderedExtend(w, init, c);
    var w' := w + [NanValues(c, n)];
    IndexOfLast(init, c);
    forall k, l | 0 <= k < l < |w'| && w'[k].NanValues? && w'[l].NanValues?
      ensures w'[k].column in init + [c] && w'[l].column in init + [c]
              && IndexOf(init + [c], w'[k].column) < IndexOf(init + [c], w'[l].column)
    {
      assert w'[k] == w[k];
      if l < |w| {
        assert w'[l] == w[l];
      } else {
        IndexOfExtend(init, c, w[k].column);
      }
    }
  }

  /** For listed columns without repetition, the NaN warnings follow the order of the list. */
  lemma {:induction false} NanWarningsInOrder(df: Frame, columns: seq<string>)
    requires df.WellFormed() && forall c :: c in columns ==> c in df.columns
    requires NoDuplicates(columns)
    ensures NanNamesListed(NanWarnings(df, columns), columns)
    ensures NanOrdered(NanWarnings(df, columns), columns)
  {
    if columns != [] {
      var init := columns[..|columns| - 1];
      var c := columns[|columns| - 1];
      assert columns == init + [c];
      assert c !in init;
      NanWarningsInOrder(df, init);
      var before := NanWarnings(df, init);
      var n := CountMissing(Column(df, c));
      if n > 0 {
        assert NanWarnings(df, columns) == before + [NanValues(c, n)];
        NanOrderedSnoc(before, init, c, n);
      } else {
        assert NanWarnings(df, columns) == before;
        NanOrderedExtend(before, init, c);
      }
    }
  }

  /** Everything `_validate_data` records for a table, in the order it records it. */
  function ValidationWarnings(df: Frame): seq<ValidationWarning>
    requires Validatable(df)
  {
    RangeWarnings(PresentNumbers(Column(df, "wavelength_nm")), PresentNumbers(Column(df, "transmission_percent")))
    + NanWarnings(df, REQUIRED_COLUMNS)
  }

  /** The kind of a warning, for counting the warnings of one kind. */
  function Kind(w: ValidationWarning): nat
  {
    match w
    case WavelengthBelowRange(_) => 0
    case WavelengthAboveRange(_) => 1
    case NegativeTransmission(_) => 2
    case TransmissionAboveRange(_) => 3
    case NanValues(_, _) => 4
  }

  /** The number of warnings of one kind. */
  function Count(w: seq<ValidationWarning>, kind: nat): nat
  {
    if w == [] then 0
    else Count(w[..|w| - 1], kind) + (if Kind(w[|w| - 1]) == kind then 1 else 0)
  }

  lemma {:induction false} CountConcat(u: seq<ValidationWarning>, v: seq<ValidationWarning>, kind: nat)
    ensures Count(u + v, kind) == Count(u, kind) + Count(v, kind)
  {
    if v != [] {
      assert (u + v)[..|u + v| - 1] == u + v[..|v| - 1];
      CountConcat(u, v[..|v| - 1], kind);
    } else {
      assert u + v == u;
    }
  }

  /** A list of NaN warnings holds no range warning. */
  lemma {:induction false} CountOfNanWarnings(w: seq<ValidationWarning>, kind: nat)
    requires kind < 4 && forall k :: 0 <= k < |w| ==> w[k].NanValues?
    ensures Count(w, kind) == 0
  {
    if w != [] {
      CountOfNanWarnings(w[..|w| - 1], kind);
    }
  }

  /** Some value lies below a bound exactly when the minimum does. */
  lemma BelowIffMin(xs: seq<real>, bound: real)
    ensures (exists i :: 0 <= i < |xs| && xs[i] < bound) <==> |xs| > 0 && Min(xs) < bound
  {
    if |xs| > 0 && Min(xs) < bound {
      var i :| 0 <= i < |xs| && xs[i] == Min(xs);
    }
  }

  /** Some value lies above a bound exactly when the maximum does. */
  lemma AboveIffMax(xs: seq<real>, bound: real)
    ensures (exists i :: 0 <= i < |xs| && xs[i] > bound) <==> |xs| > 0 && Max(xs) > bound
  {
    if |xs| > 0 && Max(xs) > bound {
      var i :| 0 <= i < |xs| && xs[i] == Max(xs);
    }
  }

  /** The number of range warnings of a kind is the sum over the four checks. */
  lemma CountOfChecks(
    a: seq<ValidationWarning>, b: seq<ValidationWarning>, c: seq<ValidationWarning>,
    d: seq<ValidationWarning>, rest: seq<ValidationWarning>, kind: nat)
    requires kind < 4 && forall k :: 0 <= k < |rest| ==> rest[k].NanValues?
    ensures Count(a + b + c + d + rest, kind) == Count(a, kind) + Count(b, kind) + Count(c, kind) + Count(d, kind)
  {
    CountConcat(a + b + c + d, rest, kind);
    CountConcat(a + b + c, d, kind);
    CountConcat(a + b, c, kind);
    CountConcat(a, b, kind);
    CountOfNanWarnings(rest, kind);
  }

  /** A check contributes one warning of its kind when it fires, none otherwise. */
  lemma CountOfCheck(fires: bool, w: ValidationWarning, kind: nat)
    ensures Count(Check(fires, w), kind) == if fires && Kind(w) == kind then 1 else 0
  {
    if fires {
      assert Check(fires, w)[..0] == [];
    }
  }

  /**
   * Each range warning is recorded once when some present value lies strictly beyond
   * its bound (a value on the bound raises none) and not at all otherwise; warnings
   * recorded after the range checks do not change this.
   */
  lemma RangeCounts(wl: seq<real>, tr: seq<real>, rest: seq<ValidationWarning>)
    requires forall k :: 0 <= k < |rest| ==> rest[k].NanValues?
    ensures Count(RangeWarnings(wl, tr) + rest, 0) == if exists i :: 0 <= i < |wl| && wl[i] < MIN_WAVELENGTH_NM then 1 else 0
    ensures Count(RangeWarnings(wl, tr) + rest, 1) == if exists i :: 0 <= i < |wl| && wl[i] > MAX_WAVELENGTH_NM then 1 else 0
    ensures Count(RangeWarnings(wl, tr) + rest, 2) == if exists i :: 0 <= i < |tr| && tr[i] < MIN_TRANSMISSION then 1 else 0
    ensures Count(RangeWarnings(wl, tr) + rest, 3) == if exists i :: 0 <= i < |tr| && tr[i] > MAX_TRANSMISSION then 1 else 0
  {
    CountsByCheck(wl, tr, rest);
    BelowIffMin(wl, MIN_WAVELENGTH_NM);
    AboveIffMax(wl, MAX_WAVELENGTH_NM);
    BelowIffMin(tr, MIN_TRANSMISSION);
    AboveIffMax(tr, MAX_TRANSMISSION);
  }

  /** Each check contributes one warning of its own kind when it fires, none otherwise. */
  lemma CountsByCheck(wl: seq<real>, tr: seq<real>, rest: seq<ValidationWarning>)
    requires forall k :: 0 <= k < |rest| ==> rest[k].NanValues?
    ensures Count(RangeWarnings(wl, tr) + rest, 0) == if |wl| > 0 && Min(wl) < MIN_WAVELENGTH_NM then 1 else 0
    ensures Count(RangeWarnings(wl, tr) + rest, 1) == if |wl| > 0 && Max(wl) > MAX_WAVELENGTH_NM then 1 else 0
    ensures Count(RangeWarnings(wl, tr) + rest, 2) == if |tr| > 0 && Min(tr) < MIN_TRANSMISSION then 1 else 0
    ensures Count(RangeWarnings(wl, tr) + rest, 3) == if |tr| > 0 && Max(tr) > MAX_TRANSMISSION then 1 else 0
  {
    var fa, wa := |wl| > 0 && Min(wl) < MIN_WAVELENGTH_NM, WavelengthBelowRange(if |wl| > 0 then Min(wl) else 0.0);
    var fb, wb := |wl| > 0 && Max(wl) > MAX_WAVELENGTH_NM, WavelengthAboveRange(if |wl| > 0 then Max(wl) else 0.0);
    var fc, wc := |tr| > 0 && Min(tr) < MIN_TRANSMISSION, NegativeTransmission(if |tr| > 0 then Min(tr) else 0.0);
    var fd, wd := |tr| > 0 && Max(tr) > MAX_TRANSMISSION, TransmissionAboveRange(if |tr| > 0 then Max(tr) else 0.0);
    var a, b, c, d := Check(fa, wa), Check(fb, wb), Check(fc, wc), Check(fd, wd);
    assert RangeWarnings(wl, tr) + rest == a + b + c + d + rest;
    forall kind: nat | kind < 4
      ensures Count(a + b + c + d + rest, kind)
        == (if fa && kind == 0 then 1 else 0) + (if fb && kind == 1 then 1 else 0)
         + (if fc && kind == 2 then 1 else 0) + (if fd && kind == 3 then 1 else 0)
    {
      CountOfChecks(a, b, c, d, rest, kind);
      CountOfCheck(fa, wa, kind);
      CountOfCheck(fb, wb, kind);
      CountOfCheck(fc, wc, kind);
      CountOfCheck(fd, wd, kind);
    }
  }

  /** The range checks give range warnings only. */
  lemma RangeWarningsKinds(wl: seq<real>, tr: seq<real>)
    ensures forall k :: 0 <= k < |RangeWarnings(wl, tr)| ==> !RangeWarnings(wl, tr)[k].NanValues?
  {
  }

  /** The range checks' own warnings report the extreme value of their column. */
  lemma RangeWarningsValues(wl: seq<real>, tr: seq<real>)
    ensures var r := RangeWarnings(wl, tr);
      forall k :: 0 <= k < |r| ==>
        && (r[k].WavelengthBelowRange? ==> |wl| > 0 && r[k].minimum == Min(wl))
        && (r[k].WavelengthAboveRange? ==> |wl| > 0 && r[k].maximum == Max(wl))
        && (r[k].NegativeTransmission? ==> |tr| > 0 && r[k].minimum == Min(tr))
        && (r[k].TransmissionAboveRange? ==> |tr| > 0 && r[k].maximum == Max(tr))
  {
  }

  /** A range warning reports the extreme value of its column. */
  lemma RangeValues(wl: seq<real>, tr: seq<real>, rest: seq<ValidationWarning>)
    requires forall k :: 0 <= k < |rest| ==> rest[k].NanValues?
    ensures var w := RangeWarnings(wl, tr) + rest;
      forall k :: 0 <= k < |w| ==>
        && (w[k].WavelengthBelowRange? ==> |wl| > 0 && w[k].minimum == Min(wl))
        && (w[k].WavelengthAboveRange? ==> |wl| > 0 && w[k].maximum == Max(wl))
        && (w[k].NegativeTransmission? ==> |tr| > 0 && w[k].minimum == Min(tr))
        && (w[k].TransmissionAboveRange? ==> |tr| > 0 && w[k].maximum == Max(tr))
  {
    var r := RangeWarnings(wl, tr);
    var w := r + rest;
    RangeWarningsValues(wl, tr);
    forall k | 0 <= k < |w|
      ensures && (w[k].WavelengthBelowRange? ==> |wl| > 0 && w[k].minimum == Min(wl))
              && (w[k].WavelengthAboveRange? ==> |wl| > 0 && w[k].maximum == Max(wl))
              && (w[k].NegativeTransmission? ==> |tr| > 0 && w[k].minimum == Min(tr))
              && (w[k].TransmissionAboveRange? ==> |tr| > 0 && w[k].maximum == Max(tr))
    {
      if k < |r| {
        assert w[k] == r[k];
      } else {
        assert w[k] == rest[k - |r|];
      }
    }
  }

  /**
   * The range rules for a list of warnings `w` and the present wavelengths and
   * transmissions: each range warning occurs once when some value lies strictly beyond
   * its bound (a value on the bound raises none) and not at all otherwise, and each
   * reports the extreme value of its column.
   */
  ghost predicate RangeReported(w: seq<ValidationWarning>, wl: seq<real>, tr: seq<real>)
  {
    && Count(w, 0) == (if exists i :: 0 <= i < |wl| && wl[i] < MIN_WAVELENGTH_NM then 1 else 0)
    && Count(w, 1) == (if exists i :: 0 <= i < |wl| && wl[i] > MAX_WAVELENGTH_NM then 1 else 0)
    && Count(w, 2) == (if exists i :: 0 <= i < |tr| && tr[i] < MIN_TRANSMISSION then 1 else 0)
    && Count(w, 3) == (if exists i :: 0 <= i < |tr| && tr[i] > MAX_TRANSMISSION then 1 else 0)
    && (forall k :: 0 <= k < |w| ==>
          && (w[k].WavelengthBelowRange? ==> |wl| > 0 && w[k].minimum == Min(wl))
          && (w[k].WavelengthAboveRange? ==> |wl| > 0 && w[k].maximum == Max(wl))
          && (w[k].NegativeTransmission? ==> |tr| > 0 && w[k].minimum == Min(tr))
          && (w[k].TransmissionAboveRange? ==> |tr| > 0 && w[k].maximum == Max(tr)))
  }

  /** The range checks followed by any NaN warnings keep the range rules. */
  lemma RangeRules(wl: seq<real>, tr: seq<real>, rest: seq<ValidationWarning>)
    requires forall k :: 0 <= k < |rest| ==> rest[k].NanValues?
    ensures RangeReported(RangeWarnings(wl, tr) + rest, wl, tr)
  {
    RangeCounts(wl, tr, rest);
    RangeValues(wl, tr, rest);
  }

  /** `_validate_data` keeps the range rules over the present values of the two measured columns. */
  lemma ValidationRangeRules(df: Frame)
    requires Validatable(df)
    ensures RangeReported(ValidationWarnings(df),
      PresentNumbers(Column(df, "wavelength_nm")), PresentNumbers(Column(df, "transmission_percent")))
  {
    var wl := PresentNumbers(Column(df, "wavelength_nm"));
    var tr := PresentNumbers(Column(df, "transmission_percent"));
    var n := NanWarnings(df, REQUIRED_COLUMNS);
    NanWarningsRules(df, REQUIRED_COLUMNS);
    RangeRules(wl, tr, n);
  }

  /**
   * The NaN rule for a list of warnings `w`: its NaN warnings name exactly the listed
   * columns that have missing cells, each once and with its count, in the order listed.
   */
  ghost predicate NanReported(w: seq<ValidationWarning>, df: Frame, columns: seq<string>)
    requires df.WellFormed() && forall c :: c in columns ==> c in df.columns
  {
    && (forall k :: 0 <= k < |w| && w[k].NanValues? ==>
          w[k].column in columns && w[k].count == CountMissing(Column(df, w[k].column)) > 0)
    && (forall c :: c in columns && CountMissing(Column(df, c)) > 0 ==>
          NanValues(c, CountMissing(Column(df, c))) in w)
    && NanOrdered(w, columns)
  }

  /** Warnings other than NaN warnings, followed by the NaN warnings, keep the NaN rule. */
  lemma NanRulesAfter(r: seq<ValidationWarning>, df: Frame, columns: seq<string>)
    requires df.WellFormed() && forall c :: c in columns ==> c in df.columns
    requires NoDuplicates(columns)
    requires forall k :: 0 <= k < |r| ==> !r[k].NanValues?
    ensures NanReported(r + NanWarnings(df, columns), df, columns)
  {
    var n := NanWarnings(df, columns);
    NanWarningsRules(df, columns);
    NanWarningsInOrder(df, columns);
    var w := r + n;
    forall k | 0 <= k < |w| && w[k].NanValues?
      ensures w[k].column in columns && w[k].count == CountMissing(Column(df, w[k].column)) > 0
    {
      if k < |r| {
        assert false;
      }
      assert w[k] == n[k - |r|];
    }
    forall c | c in columns && CountMissing(Column(df, c)) > 0
      ensures NanValues(c, CountMissing(Column(df, c))) in w
    {
      var j :| 0 <= j < |n| && n[j] == NanValues(c, CountMissing(Column(df, c)));
      assert w[|r| + j] == n[j];
    }
    NanOrderedAfterOthers(r, n, columns);
  }

  /** Warnings other than NaN warnings in front do not disturb the NaN order. */
  lemma NanOrderedAfterOthers(r: seq<ValidationWarning>, n: seq<ValidationWarning>, columns: seq<string>)
    requires NanOrdered(n, columns)
    requires forall k :: 0 <= k < |r| ==> !r[k].NanValues?
    ensures NanOrdered(r + n, columns)
  {
    var w := r + n;
    forall k, l | 0 <= k < l < |w| && w[k].NanValues? && w[l].NanValues?
      ensures w[k].column in columns && w[l].column in columns
              && IndexOf(columns, w[k].column) < IndexOf(columns, w[l].column)
    {
      if k < |r| {
        assert false;
      }
      assert w[k] == n[k - |r|] && w[l] == n[l - |r|];
    }
  }

  /** `_validate_data` keeps the NaN rule over the required columns. */
  lemma ValidationNanRules(df: Frame)
    requires Validatable(df)
    ensures NanReported(ValidationWarnings(df), df, REQUIRED_COLUMNS)
  {
    var wl := PresentNumbers(Column(df, "wavelength_nm"));
    var tr := PresentNumbers(Column(df, "transmission_percent"));
    RangeWarningsKinds(wl, tr);
    assert NoDuplicates(REQUIRED_COLUMNS) by {
      assert REQUIRED_COLUMNS[0][0] == 'w' && REQUIRED_COLUMNS[1][0] == 't' && REQUIRED_COLUMNS[2][0] == 'm';
    }
    NanRulesAfter(RangeWarnings(wl, tr), df, REQUIRED_COLUMNS);
  }

  /**
   * The NaN check of `_validate_data`: the required columns in order, one warning for
   * each with a positive count of missing cells.
   */
  method NanChecks(df: Frame) returns (warnings: seq<ValidationWarning>)
    requires Validatable(df)
    ensures warnings == NanWarnings(df, REQUIRED_COLUMNS)
  {
    warnings := [];
    var i := 0;
    while i < |REQUIRED_COLUMNS|
      invariant 0 <= i <= |REQUIRED_COLUMNS|
      invariant warnings == NanWarnings(df, REQUIRED_COLUMNS[..i])
    {
      var column := REQUIRED_COLUMNS[i];
      var count := CountMissing(Column(df, column));
      assert REQUIRED_COLUMNS[..i + 1] == REQUIRED_COLUMNS[..i] + [column];
      if count > 0 {
        warnings := warnings + [NanValues(column, count)];
      }
      i := i + 1;
    }
    assert REQUIRED_COLUMNS[..i] == REQUIRED_COLUMNS;
  }
}

/**
 * The spectroscopy data loader: it stores the table a CSV file was read into once the
 * columns are normalised and checked, and filters the stored table by sample or material.
 */
module DataLoader {
  import opened Wrappers
  import opened RealSeqs
  import opened Frames
  import opened LoaderChecks

  // ---------------------------------------------------------------------------
  // The loader
  // ---------------------------------------------------------------------------

  datatype LoaderError =
    | MissingColumns(missing: set<string>)
    | NoDataLoaded
    | NoSampleIdColumn
    | SampleNotFound(sampleId: string)
    | MaterialNotFound(materialType: string)

  /** A table as `load_csv` stores it: well formed, with the required columns. */
  ghost predicate Loaded(df: Frame)
  {
    df.WellFormed() && HasRequired(df.columns)
  }

  /** The table as read, with its column names normalised. */
  function Normalize(raw: Frame): (df: Frame)
    ensures df.rows == raw.rows && |df.columns| == |raw.columns|
    ensures forall j :: 0 <= j < |df.columns| ==> df.columns[j] == NormalizeColumn(raw.columns[j])
    ensures forall j :: 0 <= j < |df.columns| ==> Normalized(df.columns[j])
    ensures raw.WellFormed() ==> df.WellFormed()
  {
    var df := Frame(NormalizeColumns(raw.columns), raw.rows);
    assert forall j :: 0 <= j < |df.columns| ==> Normalized(df.columns[j]) by {
      forall j | 0 <= j < |df.columns|
        ensures Normalized(df.columns[j])
      {
        NormalizeColumnProperties(raw.columns[j]);
      }
    }
    df
  }

  class SpectroscopyDataLoader {
    const validateOnLoad: bool
    var loadedData: Option<Frame>
    var validationErrors: seq<ValidationWarning>

    /** Only a table that passed the required-column check is ever stored. */
    ghost predicate Valid()
      reads this
    {
      loadedData.Some? ==> Loaded(loadedData.value)
    }

    constructor(validateOnLoad: bool)
      ensures Valid()
      ensures this.validateOnLoad == validateOnLoad && loadedData == None && validationErrors == []
    {
      this.validateOnLoad := validateOnLoad;
      loadedData := None;
      validationErrors := [];
    }

    /**
     * `_validate_data`: the warnings are reset, then recorded one check at a time;
     * nothing is raised and the stored table is untouched.
     */
    method ValidateData(df: Frame)
      requires Validatable(df)
      modifies this`validationErrors
      ensures validationErrors == ValidationWarnings(df)
    {
      validationErrors := [];
      var wavelengths := PresentNumbers(Column(df, "wavelength_nm"));
      var transmissions := PresentNumbers(Column(df, "transmission_percent"));
      AppendRangeWarnings(wavelengths, transmissions);
      assert validationErrors == RangeWarnings(wavelengths, transmissions);
      var nanWarnings := NanChecks(df);
      validationErrors := validationErrors + nanWarnings;
    }

    /** The four range checks of `_validate_data`, in order. */
    method AppendRangeWarnings(wavelengths: seq<real>, transmissions: seq<real>)
      modifies this`validationErrors
      ensures validationErrors == old(validationErrors) + RangeWarnings(wavelengths, transmissions)
    {
      ghost var w0 := validationErrors;
      if |wavelengths| > 0 && Min(wavelengths) < MIN_WAVELENGTH_NM {
        validationErrors := validationErrors + [WavelengthBelowRange(Min(wavelengths))];
      }
      ghost var a := Check(|wavelengths| > 0 && Min(wavelengths) < MIN_WAVELENGTH_NM,
        WavelengthBelowRange(if |wavelengths| > 0 then Min(wavelengths) else 0.0));
      assert validationErrors == w0 + a;
      ghost var w1 := validationErrors;
      if |wavelengths| > 0 && Max(wavelengths) > MAX_WAVELENGTH_NM {
        validationErrors := validationErrors + [WavelengthAboveRange(Max(wavelengths))];
      }
      ghost var b := Check(|wavelengths| > 0 && Max(wavelengths) > MAX_WAVELENGTH_NM,
        WavelengthAboveRange(if |wavelengths| > 0 then Max(wavelengths) else 0.0));
      assert validationErrors == w1 + b;
      ghost var w2 := validationErrors;
      if |transmissions| > 0 && Min(transmissions) < MIN_TRANSMISSION {
        validationErrors := validationErrors + [NegativeTransmission(Min(transmissions))];
      }
      ghost var c := Check(|transmissions| > 0 && Min(transmissions) < MIN_TRANSMISSION,
        NegativeTransmission(if |transmissions| > 0 then Min(transmissions) else 0.0));
      assert validationErrors == w2 + c;
      ghost var w3 := validationErrors;
      if |transmissions| > 0 && Max(transmissions) > MAX_TRANSMISSION {
        validationErrors := validationErrors + [TransmissionAboveRange(Max(transmissions))];
      }
      ghost var d := Check(|transmissions| > 0 && Max(transmissions) > MAX_TRANSMISSION,
        TransmissionAboveRange(if |transmissions| > 0 then Max(transmissions) else 0.0));
      assert validationErrors == w3 + d;
      AppendFour(w0, a, b, c, d);
    }

    /**
     * `load_csv` from the table read onward: the column names are normalised; a missing
     * required column is an error that leaves the loader as it was; otherwise the data
     * are validated when the loader was built to, stored, and returned.
     */
    method LoadCsv(raw: Frame) returns (r: Result<Frame, LoaderError>)
      requires Valid() && raw.WellFormed()
      requires validateOnLoad && HasRequired(Normalize(raw).columns) ==> Validatable(Normalize(raw))
      modifies this`loadedData, this`validationErrors
      ensures Valid()
      ensures var df := Normalize(raw);
        if MissingRequired(df.columns) != {} then
          && r == Err(MissingColumns(MissingRequired(df.columns)))
          && loadedData == old(loadedData) && validationErrors == old(validationErrors)
        else
          && r == Ok(df) && loadedData == Some(df)
          && validationErrors == if validateOnLoad then ValidationWarnings(df) else old(validationErrors)
    {
      var df := Normalize(raw);
      var missing := MissingRequired(df.columns);
      if missing != {} {
        return Err(MissingColumns(missing));
      }
      if validateOnLoad {
        ValidateData(df);
      }
      loadedData := Some(df);
      r := Ok(df);
    }

    /**
     * `get_sample`: an error when nothing is loaded or there is no sample_id column;
     * otherwise exactly the rows whose sample id is `sampleId`, in table order, and an error when there
     * are none.
     */
    function GetSample(sampleId: string): (r: Result<Frame, LoaderError>)
      reads this
      requires Valid()
      ensures loadedData.None? ==> r == Err(NoDataLoaded)
      ensures loadedData.Some? && "sample_id" !in loadedData.value.columns ==> r == Err(NoSampleIdColumn)
      ensures loadedData.Some? && "sample_id" in loadedData.value.columns ==>
        var df := loadedData.value;
        if Text(sampleId) in Column(df, "sample_id") then
          r.Ok? && r.value.WellFormed() && r.value.columns == df.columns && |r.value.rows| > 0
          && (forall row :: row in r.value.rows <==> row in df.rows && row[IndexOf(df.columns, "sample_id")] == Text(sampleId))
          && r.value.rows == Select(df.rows, Matching(df.rows, IndexOf(df.columns, "sample_id"), Text(sampleId)))
        else r == Err(SampleNotFound(sampleId))
    {
      match loadedData
      case None => Err(NoDataLoaded)
      case Some(df) =>
        if "sample_id" !in df.columns then Err(NoSampleIdColumn)
        else
          var sampleData := SelectRows(df, "sample_id", Text(sampleId));
          SelectedNonEmpty(df, "sample_id", Text(sampleId));
          SelectRowsMembers(df, "sample_id", Text(sampleId));
          if sampleData.rows == [] then Err(SampleNotFound(sampleId)) else Ok(sampleData)
    }

    /**
     * `get_material`: an error when nothing is loaded; otherwise exactly the rows, in table order, of
     * that material, and an error when there are none.
     */
    function GetMaterial(materialType: string): (r: Result<Frame, LoaderError>)
      reads this
      requires Valid()
      ensures loadedData.None? ==> r == Err(NoDataLoaded)
      ensures loadedData.Some? ==>
        var df := loadedData.value;
        if Text(materialType) in Column(df, "material_type") then
          r.Ok? && r.value.WellFormed() && r.value.columns == df.columns && |r.value.rows| > 0
          && (forall row :: row in r.value.rows <==> row in df.rows && row[IndexOf(df.columns, "material_type")] == Text(materialType))
          && r.value.rows == Select(df.rows, Matching(df.rows, IndexOf(df.columns, "material_type"), Text(materialType)))
        else r == Err(MaterialNotFound(materialType))
    {
      match loadedData
      case None => Err(NoDataLoaded)
      case Some(df) =>
        assert "material_type" in REQUIRED_COLUMNS;
        var materialData := SelectRows(df, "material_type", Text(materialType));
        SelectedNonEmpty(df, "material_type", Text(materialType));
        SelectRowsMembers(df, "material_type", Text(materialType));
        if materialData.rows == [] then Err(MaterialNotFound(materialType)) else Ok(materialData)
    }

    /** `list_materials`: the distinct material types, each once. */
    function ListMaterials(): (r: Result<seq<Cell>, LoaderError>)
      reads this
      requires Valid()
      ensures loadedData.None? <==> r == Err(NoDataLoaded)
      ensures r.Ok? ==>
        && NoDuplicates(r.value)
        && forall x :: x in r.value <==> x in Column(loadedData.value, "material_type")
    {
      match loadedData
      case None => Err(NoDataLoaded)
      case Some(df) =>
        assert "material_type" in REQUIRED_COLUMNS;
        Ok(Unique(Column(df, "material_type")))
    }

    /** `list_samples`: the distinct sample ids, each once, or none without a sample_id column. */
    function ListSamples(): (r: Result<seq<Cell>, LoaderError>)
      reads this
      requires Valid()
      ensures loadedData.None? <==> r == Err(NoDataLoaded)
      ensures r.Ok? && "sample_id" !in loadedData.value.columns ==> r.value == []
      ensures r.Ok? && "sample_id" in loadedData.value.columns ==>
        && NoDuplicates(r.value)
        && forall x :: x in r.value <==> x in Column(loadedData.value, "sample_id")
    {
      match loadedData
      case None => Err(NoDataLoaded)
      case Some(df) =>
        if "sample_id" !in df.columns then Ok([]) else Ok(Unique(Column(df, "sample_id")))
    }
  }

  /** A row selection is empty exactly when no cell of the key column holds the value. */
  lemma SelectedNonEmpty(df: Frame, name: string, v: Cell)
    requires df.WellFormed() && name in df.columns
    ensures SelectRows(df, name, v).rows != [] <==> v in Column(df, name)
  {
    var g := SelectRows(df, name, v);
    var col := Column(df, name);
    SelectRowsMembers(df, name, v);
    if v in col {
      var i :| 0 <= i < |col| && col[i] == v;
      assert df.rows[i] in g.rows;
    }
    if g.rows != [] {
      assert g.rows[0] in g.rows;
      var i :| 0 <= i < |df.rows| && df.rows[i] == g.rows[0];
      assert col[i] == v;
    }
  }

  /**
   * `list_materials` and `list_samples` give the distinct values in the order of their
   * first appearance in the table.
   */
  lemma ListingOrder(loader: SpectroscopyDataLoader, i: nat, j: nat)
    requires loader.Valid() && loader.loadedData.Some?
    ensures var df := loader.loadedData.value;
      var materials := Column(df, "material_type");
      var listed := loader.ListMaterials().value;
      i < j < |listed| ==> IndexOf(materials, listed[i]) < IndexOf(materials, listed[j])
    ensures var df := loader.loadedData.value;
      "sample_id" in df.columns ==>
        var ids := Column(df, "sample_id");
        var listed := loader.ListSamples().value;
        i < j < |listed| ==> IndexOf(ids, listed[i]) < IndexOf(ids, listed[j])
  {
    var df := loader.loadedData.value;
    assert "material_type" in REQUIRED_COLUMNS;
    if i < j < |Unique(Column(df, "material_type"))| {
      UniqueFirstAppearance(Column(df, "material_type"), i, j);
    }
    if "sample_id" in df.columns && i < j < |Unique(Column(df, "sample_id"))| {
      UniqueFirstAppearance(Column(df, "sample_id"), i, j);
    }
  }
}
