/** `DayDuration.DayString`: a duration in days, hours, minutes and seconds. */
module DayDuration {
  import opened Decimal

  const TWO64 := 0x1_0000_0000_0000_0000
  const SECOND := 1_000_000_000

  /** Nanoseconds, as `time.Duration` holds them. */
  type Int64 = x: int | -0x8000_0000_0000_0000 <= x < 0x8000_0000_0000_0000

  function Abs(x: int): (a: nat) {
    if x < 0 then -x else x
  }

  // ---------- reading the notation ----------

  /** A number and its unit, as read from the text. */
  datatype Field = Field(n: nat, unit: char)

  /** Read the fields of a text from left to right, `cur` being the digits read so far. */
  function Fields(s: string, cur: nat): (fs: seq<Field>) {
    if s == "" then []
    else if IsDigit(s[0]) then Fields(s[1..], cur * 10 + DigitValue(s[0]))
    else if s[0] == ' ' then Fields(s[1..], cur)
    else [Field(cur, s[0])] + Fields(s[1..], 0)
  }

  function Parse(s: string): (r: (bool, seq<Field>)) {
    if s != "" && s[0] == '-' then (true, Fields(s[1..], 0)) else (false, Fields(s, 0))
  }

  function UnitSeconds(c: char): (n: nat) {
    if c == 'd' then 86400 else if c == 'h' then 3600 else if c == 'm' then 60 else 1
  }

  function Seconds(fs: seq<Field>): (n: nat) {
    if fs == [] then 0 else fs[0].n * UnitSeconds(fs[0].unit) + Seconds(fs[1..])
  }

  /** Fields in the order d, h, m, s, ending in seconds, with hours below 24 and the rest below 60. */
  predicate Canonical(fs: seq<Field>) {
    && 1 <= |fs| <= 4
    && (forall i :: 0 <= i < |fs| ==> fs[i].unit == "dhms"[4 - |fs| + i])
    && (forall i :: 0 <= i < |fs| ==>
          && (fs[i].unit == 'h' ==> fs[i].n < 24)
          && (fs[i].unit == 'm' || fs[i].unit == 's' ==> fs[i].n < 60))
    && (|fs| > 1 ==> fs[0].n > 0)
  }

  // ---------- what is printed ----------

  function Part(n: nat, unit: char): (s: string) {
    Digits(n) + [unit]
  }

  function ShowLow(u: nat): (s: string) {
    Part(u % 60, 's')
  }

  function ShowMinutes(m: nat, u: nat): (s: string) {
    Part(m, 'm') + " " + ShowLow(u)
  }

  function ShowHours(h: nat, u: nat): (s: string) {
    Part(h, 'h') + " " + ShowMinutes(u / 60 % 60, u)
  }

  function ShowDays(d: nat, u: nat): (s: string) {
    Part(d, 'd') + " " + ShowHours(u / 3600 % 24, u)
  }

  /** `u` seconds, leading units left out while they are zero. */
  function ShowSeconds(u: nat): (s: string) {
    if u < 60 then ShowLow(u)
    else if u < 3600 then ShowMinutes(u / 60, u)
    else if u < 86400 then ShowHours(u / 3600, u)
    else ShowDays(u / 86400, u)
  }

  /** The text for `ns` nanoseconds. */
  function Show(ns: Int64): (s: string) {
    (if ns < 0 then "-" else "") + ShowSeconds(Abs(ns) / SECOND)
  }

  /** Reading `n` in front of other text adds its digits to the number being read. */
  lemma {:induction false} FieldsOfDigits(n: nat, rest: string)
    ensures Fields(Digits(n) + rest, 0) == Fields(rest, n)
    decreases n
  {
    if n < 10 {
      assert (Digits(n) + rest)[1..] == rest;
    } else {
      var last := [Digit(n % 10)];
      assert Digits(n) + rest == Digits(n / 10) + (last + rest);
      FieldsOfDigits(n / 10, last + rest);
      assert (last + rest)[1..] == rest;
    }
  }

  lemma FieldsOfPart(n: nat, unit: char, rest: string)
    requires !IsDigit(unit) && unit != ' '
    ensures Fields(Part(n, unit) + rest, 0) == [Field(n, unit)] + Fields(rest, 0)
    ensures Fields(Part(n, unit) + " " + rest, 0) == [Field(n, unit)] + Fields(rest, 0)
  {
    assert Part(n, unit) + rest == Digits(n) + ([unit] + rest);
    FieldsOfDigits(n, [unit] + rest);
    assert ([unit] + rest)[1..] == rest;
    assert Part(n, unit) + " " + rest == Digits(n) + ([unit] + (" " + rest));
    FieldsOfDigits(n, [unit] + (" " + rest));
    assert ([unit] + (" " + rest))[1..] == " " + rest;
    assert (" " + rest)[1..] == rest;
  }

  lemma ReadParts(d: nat, h: nat, m: nat, u: nat)
    ensures Fields(ShowLow(u), 0) == [Field(u % 60, 's')]
    ensures Fields(ShowMinutes(m, u), 0) == [Field(m, 'm'), Field(u % 60, 's')]
    ensures Fields(ShowHours(h, u), 0) == [Field(h, 'h'), Field(u / 60 % 60, 'm'), Field(u % 60, 's')]
    ensures Fields(ShowDays(d, u), 0)
            == [Field(d, 'd'), Field(u / 3600 % 24, 'h'), Field(u / 60 % 60, 'm'), Field(u % 60, 's')]
  {
    FieldsOfPart(u % 60, 's', "");
    assert ShowLow(u) + "" == ShowLow(u);
    FieldsOfPart(m, 'm', ShowLow(u));
    FieldsOfPart(u / 60 % 60, 'm', ShowLow(u));
    FieldsOfPart(h, 'h', ShowMinutes(u / 60 % 60, u));
    FieldsOfPart(u / 3600 % 24, 'h', ShowMinutes(u / 60 % 60, u));
    FieldsOfPart(d, 'd', ShowHours(u / 3600 % 24, u));
  }

  lemma Divisions(u: nat)
    ensures u / 60 / 60 == u / 3600 && u / 3600 / 24 == u / 86400
    ensures u == u / 86400 * 86400 + u / 3600 % 24 * 3600 + u / 60 % 60 * 60 + u % 60
    ensures u < 3600 ==> u / 60 % 60 == u / 60
    ensures u < 86400 ==> u / 3600 % 24 == u / 3600
  {
  }

  lemma CanonicalFields(d: nat, h: nat, m: nat, s: nat)
    requires h < 24 && m < 60 && s < 60
    ensures Canonical([Field(s, 's')])
    ensures m > 0 ==> Canonical([Field(m, 'm'), Field(s, 's')])
    ensures h > 0 ==> Canonical([Field(h, 'h'), Field(m, 'm'), Field(s, 's')])
    ensures d > 0 ==> Canonical([Field(d, 'd'), Field(h, 'h'), Field(m, 'm'), Field(s, 's')])
  {
  }

  lemma ReadSeconds(u: nat)
    ensures var fs := Fields(ShowSeconds(u), 0);
            Canonical(fs) && Seconds(fs) == u
  {
    var d, h, m, s := u / 86400, u / 3600 % 24, u / 60 % 60, u % 60;
    Divisions(u);
    ReadParts(d, h, m, u);
    CanonicalFields(d, h, m, s);
    SecondsOf(Field(d, 'd'), Field(h, 'h'), Field(m, 'm'), Field(s, 's'));
    ShowBy(u);
  }

  lemma ShowBy(u: nat)
    ensures var d, h, m := u / 86400, u / 3600 % 24, u / 60 % 60;
            ShowSeconds(u) ==
              if d > 0 then ShowDays(d, u) else if h > 0 then ShowHours(h, u)
              else if m > 0 then ShowMinutes(m, u) else ShowLow(u)
  {
    Divisions(u);
  }

  lemma SecondsOf(d: Field, h: Field, m: Field, s: Field)
    requires d.unit == 'd' && h.unit == 'h' && m.unit == 'm' && s.unit == 's'
    ensures Seconds([s]) == s.n
    ensures Seconds([m, s]) == m.n * 60 + s.n
    ensures Seconds([h, m, s]) == h.n * 3600 + m.n * 60 + s.n
    ensures Seconds([d, h, m, s]) == d.n * 86400 + h.n * 3600 + m.n * 60 + s.n
  {
    assert [s][1..] == [] && [m, s][1..] == [s] && [h, m, s][1..] == [m, s] && [d, h, m, s][1..] == [h, m, s];
  }

  /** Reading the printed text back gives the sign and the whole seconds of every duration. */
  lemma RoundTrip(ns: Int64)
    ensures var (neg, fs) := Parse(Show(ns));
            neg == (ns < 0) && Canonical(fs) && Seconds(fs) == Abs(ns) / 1_000_000_000
  {
    var body := ShowSeconds(Abs(ns) / SECOND);
    ReadSeconds(Abs(ns) / SECOND);
    if ns < 0 {
      assert ("-" + body)[1..] == body;
    } else {
      assert "" + body == body;
      assert body[0] != '-';
    }
  }

  // ---------- the code ----------

  /** Writes `v` into `buf` so that it ends before position `end`, and returns where it starts. */
  method FmtInt(buf: array<char>, end: nat, v: nat) returns (w: nat)
    requires |Digits(v)| <= end <= buf.Length
    modifies buf
    ensures w == end - |Digits(v)| && buf[w..end] == Digits(v)
    ensures buf[end..] == old(buf[end..]) && buf[..w] == old(buf[..w])
  {
    w := end;
    if v == 0 {
      w := w - 1;
      buf[w] := '0';
    } else {
      var u := v;
      while u > 0
        invariant w <= end && buf[end..] == old(buf[end..]) && buf[..w] == old(buf[..w])
        invariant (if u == 0 then "" else Digits(u)) + buf[w..end] == Digits(v)
        decreases u
      {
        ghost var done := buf[w..end];
        DigitsStep(u, done);
        w := w - 1;
        buf[w] := Digit(u % 10);
        u := u / 10;
        assert buf[w..end] == [buf[w]] + done;
      }
    }
  }

  lemma DigitsStep(u: nat, done: string)
    requires u > 0
    ensures Digits(u) + done == (if u / 10 == 0 then "" else Digits(u / 10)) + ([Digit(u % 10)] + done)
  {
  }

  /** Writes one character and returns its position. */
  method Put(buf: array<char>, end: nat, c: char) returns (w: nat)
    requires 0 < end <= buf.Length
    modifies buf
    ensures w == end - 1 && buf[w..] == [c] + old(buf[end..])
  {
    w := end - 1;
    buf[w] := c;
  }

  /** Writes a number in front of what is there already. */
  method PutInt(buf: array<char>, end: nat, v: nat) returns (w: nat)
    requires |Digits(v)| <= end <= buf.Length
    modifies buf
    ensures w == end - |Digits(v)| && buf[w..] == Digits(v) + old(buf[end..])
  {
    ghost var tail := buf[end..];
    w := FmtInt(buf, end, v);
    assert buf[end..] == tail;
    assert buf[w..] == buf[w..end] + buf[end..];
  }

  /** The text is built from right to left in a 32-byte buffer and never leaves it. */
  method DayString(ns: Int64) returns (text: string)
    ensures text == Show(ns)
  {
    var buf := new char[32](_ => ' ');
    var w := buf.Length;
    var u := ns % TWO64;
    var neg := ns < 0;
    if neg {
      u := (TWO64 - u) % TWO64;
    }
    assert u == Abs(ns);
    if u < SECOND {
      w := w - 2;
      buf[w] := '0';
      buf[w + 1] := 's';
      assert buf[w..] == "0s" == ShowSeconds(0);
    } else {
      u := u / SECOND;
      w := PutSeconds(buf, u);
    }
    if neg {
      w := Put(buf, w, '-');
    }
    text := buf[w..];
  }

  /** Writes a number with its unit and a space in front of what is there already. */
  method PutUnit(buf: array<char>, end: nat, v: nat, unit: char) returns (w: nat)
    requires |Digits(v)| + 2 <= end <= buf.Length
    modifies buf
    ensures w == end - 2 - |Digits(v)| && buf[w..] == Part(v, unit) + " " + old(buf[end..])
  {
    w := Put(buf, end, ' ');
    w := Put(buf, w, unit);
    w := PutInt(buf, w, v);
    assert buf[w..] == Digits(v) + ([unit] + (" " + old(buf[end..])));
  }

  /** The part of `DayString` for at least one second. */
  method PutSeconds(buf: array<char>, seconds: nat) returns (w: nat)
    requires buf.Length == 32 && seconds / 86400 < 1_000_000
    modifies buf
    ensures 12 < w <= 32 && buf[w..] == ShowSeconds(seconds)
  {
    var u := seconds;
    Divisions(seconds);
    ShowBy(seconds);
    w := Put(buf, 32, 's');
    DigitsLength(u % 60);
    w := PutInt(buf, w, u % 60);
    assert w >= 29 && buf[w..] == ShowLow(seconds);
    u := u / 60;
    if u > 0 {
      DigitsLength(u % 60);
      w := PutUnit(buf, w, u % 60, 'm');
      assert w >= 25 && buf[w..] == ShowMinutes(seconds / 60 % 60, seconds);
      u := u / 60;
      if u > 0 {
        DigitsLength(u % 24);
        w := PutUnit(buf, w, u % 24, 'h');
        assert w >= 21 && buf[w..] == ShowHours(seconds / 3600 % 24, seconds);
        u := u / 24;
      }
      if u > 0 {
        DigitsLength(u);
        w := PutUnit(buf, w, u, 'd');
      }
    }
  }
}
