/**
 * The prompt's duration text (`secs_to_readable`): a whole number of seconds
 * split into hours, minutes and seconds and written as, e.g., `1h1m1s`.
 * Leading zero fields are omitted; once a field is written, every lower field
 * follows it, even when zero.
 */
module Duration {
  import opened Wrappers
  import opened Decimal

  /** One written field: its numeric value and its unit letter `h`, `m` or `s`. */
  datatype Field = Field(value: int, unit: char)

  predicate IsUnit(c: char) {
    c == 'h' || c == 'm' || c == 's'
  }

  /** Seconds per unit of a unit letter: 3600 for hours, 60 for minutes, 1 for seconds. */
  function Weight(u: char): int {
    if u == 'h' then 3600 else if u == 'm' then 60 else 1
  }

  /** Seconds denoted by `v` units of `u`. */
  function Scaled(v: int, u: char): int {
    v * Weight(u)
  }

  /**
   * Python's `divmod(secs, 3600)` followed by `divmod(remainder, 60)`.
   * Dafny's `/` and `%` with a positive divisor round down like Python's, so
   * negative inputs decompose the same way (only the hours can be negative).
   */
  function Decompose(secs: int): (r: (int, int, int))
    ensures r.0 * 3600 + r.1 * 60 + r.2 == secs
    ensures 0 <= r.1 < 60 && 0 <= r.2 < 60
    ensures r.0 == 0 <==> 0 <= secs < 3600
    ensures r.0 == 0 && r.1 == 0 <==> 0 <= secs < 60
  {
    (secs / 3600, (secs % 3600) / 60, (secs % 3600) % 60)
  }

  /** The three fields, hours first, before leading zeros are dropped. */
  function AllFields(secs: int): seq<Field> {
    var (h, m, s) := Decompose(secs);
    [Field(h, 'h'), Field(m, 'm'), Field(s, 's')]
  }

  /** What is left of `fs` once its leading zero-valued fields are removed. */
  function DropLeadingZeros(fs: seq<Field>): seq<Field> {
    if fs == [] || fs[0].value != 0 then fs else DropLeadingZeros(fs[1..])
  }

  /**
   * Dropping leading zeros leaves a suffix of the fields that is empty or
   * starts with a non-zero field, and everything dropped is zero.
   */
  lemma {:induction false} DropLeadingZerosSpec(fs: seq<Field>)
    ensures var r := DropLeadingZeros(fs);
      && |r| <= |fs| && r == fs[|fs| - |r|..]
      && (r == [] || r[0].value != 0)
      && forall k :: 0 <= k < |fs| - |r| ==> fs[k].value == 0
  {
    if fs != [] && fs[0].value == 0 {
      DropLeadingZerosSpec(fs[1..]);
    }
  }

  /** The fields that are written for `secs`. */
  function Fields(secs: int): seq<Field> {
    DropLeadingZeros(AllFields(secs))
  }

  /** Each field written as `str(value)` followed by its unit letter. */
  function Render(fs: seq<Field>): string {
    if fs == [] then "" else IntToString(fs[0].value) + [fs[0].unit] + Render(fs[1..])
  }

  /** The text `secs_to_readable(secs)` returns. */
  function Readable(secs: int): string {
    Render(Fields(secs))
  }

  /**
   * `secs_to_readable`: builds the text in a local accumulator with three
   * guarded appends, one per field.
   */
  method SecsToReadable(secs: int) returns (readable: string)
    ensures readable == Readable(secs)
  {
    readable := "";
    var hours, remainder := secs / 3600, secs % 3600;
    var minutes, seconds := remainder / 60, remainder % 60;
    if hours != 0 {
      readable := readable + IntToString(hours) + "h";
    }
    if hours != 0 || minutes != 0 {
      readable := readable + IntToString(minutes) + "m";
    }
    if hours != 0 || minutes != 0 || seconds != 0 {
      readable := readable + IntToString(seconds) + "s";
    }
    assert Decompose(secs) == (hours, minutes, seconds);
    FieldsByMagnitude(secs);
    var h, m, s := IntToString(hours), IntToString(minutes), IntToString(seconds);
    if hours != 0 {
      assert readable == h + "h" + m + "m" + s + "s";
      RenderThree(Field(hours, 'h'), Field(minutes, 'm'), Field(seconds, 's'));
    } else if minutes != 0 {
      assert readable == m + "m" + s + "s";
      RenderTwo(Field(minutes, 'm'), Field(seconds, 's'));
    } else if seconds != 0 {
      assert readable == s + "s";
      RenderOne(Field(seconds, 's'));
    } else {
      assert readable == "";
    }
  }

  // ---------------------------------------------------------------------
  // Reading the text back

  /** Index of the first unit letter in `s`, or `|s|` when there is none. */
  function FirstUnit(s: string): (k: nat)
    ensures k <= |s|
    ensures k < |s| ==> IsUnit(s[k])
  {
    if s == [] then 0 else if IsUnit(s[0]) then 0 else 1 + FirstUnit(s[1..])
  }

  /**
   * The number of seconds a duration text denotes: the sum over its
   * `<integer><unit>` groups of value times the unit's weight; `None` when the
   * text is not a sequence of such groups. The empty text denotes 0.
   */
  function ReadDuration(s: string): Option<int>
    decreases |s|
  {
    if s == [] then Some(0)
    else
      var k := FirstUnit(s);
      if k == |s| then None
      else
        var value, rest := ParseInt(s[..k]), ReadDuration(s[k + 1..]);
        if value.Some? && rest.Some? then Some(Scaled(value.value, s[k]) + rest.value) else None
  }

  /** Every field carries a unit letter. */
  predicate AllUnits(fs: seq<Field>) {
    fs == [] || (IsUnit(fs[0].unit) && AllUnits(fs[1..]))
  }

  /** Seconds denoted by a list of fields. */
  function FieldsTotal(fs: seq<Field>): int
  {
    if fs == [] then 0 else Scaled(fs[0].value, fs[0].unit) + FieldsTotal(fs[1..])
  }

  lemma {:induction false} FirstUnitAfterNumber(t: string, u: char, rest: string)
    requires forall j :: 0 <= j < |t| ==> !IsUnit(t[j])
    requires IsUnit(u)
    ensures FirstUnit(t + [u] + rest) == |t|
  {
    if t != [] {
      assert (t + [u] + rest)[1..] == t[1..] + [u] + rest;
      FirstUnitAfterNumber(t[1..], u, rest);
    }
  }

  lemma IntToStringHasNoUnit(i: int)
    ensures forall j :: 0 <= j < |IntToString(i)| ==> !IsUnit(IntToString(i)[j])
  {
    IntToStringShape(i);
  }

  /** Reading a text that starts with one `<integer><unit>` group. */
  lemma ReadGroup(t: string, u: char, rest: string, v: int, total: int)
    requires forall j :: 0 <= j < |t| ==> !IsUnit(t[j])
    requires IsUnit(u)
    requires ParseInt(t) == Some(v)
    requires ReadDuration(rest) == Some(total)
    ensures ReadDuration(t + [u] + rest) == Some(Scaled(v, u) + total)
  {
    var s := t + [u] + rest;
    FirstUnitAfterNumber(t, u, rest);
    assert s[|t|] == u;
    assert s[..|t|] == t;
    assert s[|t| + 1..] == rest;
  }

  /** Reading a text that starts with one rendered field. */
  lemma ReadField(v: int, u: char, rest: string, total: int, text: string)
    requires IsUnit(u)
    requires ReadDuration(rest) == Some(total)
    requires text == IntToString(v) + [u] + rest
    ensures ReadDuration(text) == Some(Scaled(v, u) + total)
  {
    IntToStringHasNoUnit(v);
    IntToStringRoundTrip(v);
    ReadGroup(IntToString(v), u, rest, v, total);
  }



  /** One step of `ReadRender`: the first field, given the rest. */
  lemma ReadRenderStep(fs: seq<Field>)
    requires fs != [] && AllUnits(fs)
    requires ReadDuration(Render(fs[1..])) == Some(FieldsTotal(fs[1..]))
    ensures ReadDuration(Render(fs)) == Some(FieldsTotal(fs))
  {
    var v, u, tail := fs[0].value, fs[0].unit, fs[1..];
    var text, total := IntToString(v) + [u] + Render(tail), Scaled(v, u) + FieldsTotal(tail);
    assert FieldsTotal(fs) == total;
    ReadField(v, u, Render(tail), FieldsTotal(tail), text);
  }

  lemma {:induction false} ReadRender(fs: seq<Field>)
    requires AllUnits(fs)
    ensures ReadDuration(Render(fs)) == Some(FieldsTotal(fs))
  {
    if fs == [] {
      assert Render(fs) == [];
    } else {
      ReadRender(fs[1..]);
      ReadRenderStep(fs);
    }
  }

  lemma {:induction false} DropLeadingZerosTotal(fs: seq<Field>)
    requires AllUnits(fs)
    ensures AllUnits(DropLeadingZeros(fs))
    ensures FieldsTotal(DropLeadingZeros(fs)) == FieldsTotal(fs)
  {
    if fs != [] && fs[0].value == 0 {
      DropLeadingZerosTotal(fs[1..]);
    }
  }

  lemma ThreeFieldsTotal(h: int, m: int, s: int)
    ensures FieldsTotal([Field(h, 'h'), Field(m, 'm'), Field(s, 's')])
            == h * 3600 + m * 60 + s
  {
    var fs := [Field(h, 'h'), Field(m, 'm'), Field(s, 's')];
    assert fs[1..][1..][1..] == [];
    assert FieldsTotal(fs[1..][1..]) == s;
    assert FieldsTotal(fs[1..]) == m * 60 + s;
  }

  /** The numbers written in the text recover the input: reading it back gives `secs`. */
  lemma ReadableRoundTrip(secs: int)
    ensures ReadDuration(Readable(secs)) == Some(secs)
  {
    var (h, m, s) := Decompose(secs);
    var all := AllFields(secs);
    assert all == [Field(h, 'h'), Field(m, 'm'), Field(s, 's')];
    assert all[1..][1..][1..] == [];
    assert AllUnits(all[1..][1..]);
    DropLeadingZerosTotal(all);
    ReadRender(Fields(secs));
    ThreeFieldsTotal(h, m, s);
  }

  // ---------------------------------------------------------------------
  // Which fields appear

  lemma {:induction false} UnitInRender(fs: seq<Field>, c: char)
    requires IsUnit(c)
    ensures c in Render(fs) <==> exists k :: 0 <= k < |fs| && fs[k].unit == c
  {
    if fs != [] {
      IntToStringHasNoUnit(fs[0].value);
      UnitInRender(fs[1..], c);
      var t := IntToString(fs[0].value);
      assert Render(fs) == t + [fs[0].unit] + Render(fs[1..]);
      assert c !in t;
      if c in Render(fs[1..]) {
        var k :| 0 <= k < |fs[1..]| && fs[1..][k].unit == c;
        assert fs[k + 1].unit == c;
      }
      if exists k :: 0 <= k < |fs| && fs[k].unit == c {
        var k :| 0 <= k < |fs| && fs[k].unit == c;
        if k > 0 {
          assert fs[1..][k - 1].unit == c;
        }
      }
    }
  }

  /**
   * Which fields are written, by the size of the input: all three when the
   * hours are non-zero, minutes and seconds when only the minutes are, the
   * seconds alone below a minute, none for 0.
   */
  lemma FieldsByMagnitude(secs: int)
    ensures var (h, m, s) := Decompose(secs);
      && (h != 0 ==> Fields(secs) == [Field(h, 'h'), Field(m, 'm'), Field(s, 's')])
      && (h == 0 && m != 0 ==> Fields(secs) == [Field(m, 'm'), Field(s, 's')])
      && (h == 0 && m == 0 && s != 0 ==> Fields(secs) == [Field(s, 's')])
      && (h == 0 && m == 0 && s == 0 ==> Fields(secs) == [])
  {
    var (h, m, s) := Decompose(secs);
    var all := [Field(h, 'h'), Field(m, 'm'), Field(s, 's')];
    assert AllFields(secs) == all;
    if h == 0 {
      var ms := [Field(m, 'm'), Field(s, 's')];
      assert all[1..] == ms;
      assert DropLeadingZeros(all) == DropLeadingZeros(ms);
      if m == 0 {
        var ss := [Field(s, 's')];
        assert ms[1..] == ss;
        assert DropLeadingZeros(ms) == DropLeadingZeros(ss);
        if s == 0 {
          assert ss[1..] == [];
          assert DropLeadingZeros(ss) == DropLeadingZeros([]);
        }
      }
    }
  }

  /**
   * The hours field is written exactly when the input is at least an hour (or
   * negative), the minutes field exactly when it is at least a minute (or
   * negative), the seconds field exactly when it is non-zero; so 0 gives the
   * empty text and every non-zero input a non-empty one.
   */
  lemma FieldPresence(secs: int)
    ensures 'h' in Readable(secs) <==> secs >= 3600 || secs < 0
    ensures 'm' in Readable(secs) <==> secs >= 60 || secs < 0
    ensures 's' in Readable(secs) <==> secs != 0
    ensures Readable(secs) == "" <==> secs == 0
  {
    var (h, m, s) := Decompose(secs);
    FieldsByMagnitude(secs);
    var fs := Fields(secs);
    UnitInRender(fs, 'h');
    UnitInRender(fs, 'm');
    UnitInRender(fs, 's');
    if h != 0 {
      assert fs[1].unit == 'm' && fs[2].unit == 's';
    } else if m != 0 {
      assert fs[1].unit == 's';
    } else if s != 0 {
      assert fs[0].unit == 's';
    }
  }

  lemma RenderOne(a: Field)
    ensures Render([a]) == IntToString(a.value) + [a.unit]
  {
    assert [a][1..] == [];
  }

  /** Renders two fields. */
  lemma RenderTwo(a: Field, b: Field)
    ensures Render([a, b]) == IntToString(a.value) + [a.unit] + IntToString(b.value) + [b.unit]
  {
    assert [a, b][1..] == [b];
    RenderOne(b);
  }

  /** Renders three fields. */
  lemma RenderThree(a: Field, b: Field, c: Field)
    ensures Render([a, b, c])
      == IntToString(a.value) + [a.unit] + IntToString(b.value) + [b.unit] + IntToString(c.value) + [c.unit]
  {
    assert [a, b, c][1..] == [b, c];
    RenderTwo(b, c);
  }

  lemma ReadableOf12()
    ensures Readable(12) == "12s"
  {
  }

  lemma ReadableOf59()
    ensures Readable(59) == "59s"
  {
  }

  lemma ReadableOf100()
    ensures Readable(100) == "1m40s"
  {
  }

  lemma ReadableOf3600()
    ensures Readable(3600) == "1h0m0s"
  {
  }

  lemma ReadableOf3661()
    ensures Readable(3661) == "1h1m1s"
  {
  }

  /** The examples of the formatter: `100` is `1m40s` and `3600` is `1h0m0s`. */
  lemma ReadableExamples()
    ensures Readable(0) == ""
    ensures Readable(59) == "59s"
    ensures Readable(100) == "1m40s"
    ensures Readable(3600) == "1h0m0s"
    ensures Readable(3661) == "1h1m1s"
  {
    FieldPresence(0);
    ReadableOf59();
    ReadableOf100();
    ReadableOf3600();
    ReadableOf3661();
  }
}
