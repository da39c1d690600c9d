/** The session directory name: `new Date().toISOString()` with `-`, `:`, `.`, `T` and `Z`
    removed, cut to its first 14 characters (`YYYYMMDDHHMMSS`), after `project-`. The
    clock reading is a parameter. */
module Timestamps {

  /** A UTC clock reading, as `toISOString` prints it. */
  datatype Instant = Instant(year: int, month: int, day: int, hour: int, minute: int, second: int, millis: int)

  /** A reading in the range where `toISOString` prints a four-digit year. */
  predicate ValidInstant(i: Instant)
  {
    && 0 <= i.year <= 9999 && 1 <= i.month <= 12 && 1 <= i.day <= 31
    && 0 <= i.hour < 24 && 0 <= i.minute < 60 && 0 <= i.second < 60 && 0 <= i.millis < 1000
  }

  predicate IsDigit(c: char)
  {
    '0' <= c <= '9'
  }

  function Digit(d: int): (c: char)
    requires 0 <= d < 10
    ensures IsDigit(c) && c as int - '0' as int == d
  {
    ('0' as int + d) as char
  }

  /** `n` in decimal, zero-padded to `w` digits. */
  function Pad(n: nat, w: nat): (s: string)
    ensures |s| == w
    ensures forall k :: 0 <= k < |s| ==> IsDigit(s[k])
  {
    if w == 0 then "" else Pad(n / 10, w - 1) + [Digit(n % 10)]
  }

  /** The number a string of digits spells. */
  function Value(s: string): int
  {
    if s == [] then 0 else 10 * Value(s[..|s| - 1]) + (s[|s| - 1] as int - '0' as int)
  }

  function Pow10(w: nat): (p: nat)
    ensures p >= 1
  {
    if w == 0 then 1 else 10 * Pow10(w - 1)
  }

  /** Padding loses nothing for a number that fits: reading the digits back gives it. */
  lemma {:induction false} ValuePad(n: nat, w: nat)
    requires n < Pow10(w)
    ensures Value(Pad(n, w)) == n
  {
    if w > 0 {
      var s := Pad(n, w);
      assert s[..|s| - 1] == Pad(n / 10, w - 1);
      ValuePad(n / 10, w - 1);
    }
  }

  /** So different numbers that fit get different paddings. */
  lemma PadInjective(a: nat, b: nat, w: nat)
    requires a < Pow10(w) && b < Pow10(w)
    requires Pad(a, w) == Pad(b, w)
    ensures a == b
  {
    ValuePad(a, w);
    ValuePad(b, w);
  }

  /** `toISOString()`: `YYYY-MM-DDTHH:MM:SS.mmmZ`. */
  function IsoString(i: Instant): (s: string)
    requires ValidInstant(i)
  {
    Pad(i.year, 4) + ("-" + (Pad(i.month, 2) + ("-" + (Pad(i.day, 2) + ("T"
    + (Pad(i.hour, 2) + (":" + (Pad(i.minute, 2) + (":" + (Pad(i.second, 2) + ("."
    + (Pad(i.millis, 3) + "Z"))))))))))))
  }

  /** A character of the class `[:.TZ-]`. */
  predicate IsSeparator(c: char)
  {
    c == ':' || c == '.' || c == 'T' || c == 'Z' || c == '-'
  }

  /** `s.replace(/[:.TZ-]/g, "")`. */
  function StripSeparators(s: string): (r: string)
    ensures |r| <= |s|
    ensures forall k :: 0 <= k < |r| ==> !IsSeparator(r[k])
  {
    if s == [] then []
    else if IsSeparator(s[0]) then StripSeparators(s[1..])
    else [s[0]] + StripSeparators(s[1..])
  }

  /** Removing separators works piece by piece. */
  lemma {:induction false} StripConcat(a: string, b: string)
    ensures StripSeparators(a + b) == StripSeparators(a) + StripSeparators(b)
    decreases |a|
  {
    if a != [] {
      assert (a + b)[1..] == a[1..] + b;
      StripConcat(a[1..], b);
    } else {
      assert a + b == b;
    }
  }

  /** A string of digits has no separator to remove. */
  lemma {:induction false} StripDigits(s: string)
    requires AllDigits(s)
    ensures StripSeparators(s) == s
    decreases |s|
  {
    if s != [] {
      StripDigits(s[1..]);
    }
  }

  /** `s.slice(0, n)`: a longer string is cut, a shorter one is kept whole. */
  function Prefix(s: string, n: nat): (r: string)
    ensures |r| == if |s| <= n then |s| else n
    ensures r == s[..|r|]
  {
    if |s| <= n then s else s[..n]
  }

  /** The timestamp part of the directory name. */
  function Stamp(i: Instant): string
    requires ValidInstant(i)
  {
    Prefix(StripSeparators(IsoString(i)), 14)
  }

  /** `project-${ts}`. */
  function ProjectDirName(i: Instant): string
    requires ValidInstant(i)
  {
    "project-" + Stamp(i)
  }

  /** The date and the time to the second, without separators. */
  function Seconds(i: Instant): string
    requires ValidInstant(i)
  {
    Pad(i.year, 4) + (Pad(i.month, 2) + (Pad(i.day, 2) + (Pad(i.hour, 2) + (Pad(i.minute, 2) + Pad(i.second, 2)))))
  }

  predicate AllDigits(s: string)
  {
    forall k :: 0 <= k < |s| ==> IsDigit(s[k])
  }

  /** Removing separators from a field without any and the separator after it leaves the
      field. */
  lemma FieldThenSeparator(d: string, c: char, rest: string)
    requires StripSeparators(d) == d && IsSeparator(c)
    ensures StripSeparators(d + ([c] + rest)) == d + StripSeparators(rest)
  {
    StripConcat(d, [c] + rest);
    assert ([c] + rest)[1..] == rest;
  }

  /** Removing the separators from fields without any, laid out as `toISOString` lays them out
      leaves the fields, run together. */
  lemma StripFields(y: string, mo: string, d: string, h: string, mi: string, s: string, ms: string)
    requires StripSeparators(y) == y && StripSeparators(mo) == mo && StripSeparators(d) == d
    requires StripSeparators(h) == h && StripSeparators(mi) == mi && StripSeparators(s) == s
    requires StripSeparators(ms) == ms
    ensures StripSeparators(y + ("-" + (mo + ("-" + (d + ("T" + (h + (":" + (mi + (":" + (s + ("."
      + (ms + "Z")))))))))))))
      == y + (mo + (d + (h + (mi + (s + ms)))))
  {
    var t1 := ms + "Z";
    assert StripSeparators(t1) == ms by {
      FieldThenSeparator(ms, 'Z', []);
      assert ms + (['Z'] + []) == t1;
    }
    var t2 := s + ("." + t1);
    assert StripSeparators(t2) == s + ms by {
      FieldThenSeparator(s, '.', t1);
    }
    var t3 := mi + (":" + t2);
    assert StripSeparators(t3) == mi + (s + ms) by {
      FieldThenSeparator(mi, ':', t2);
    }
    var t4 := h + (":" + t3);
    assert StripSeparators(t4) == h + (mi + (s + ms)) by {
      FieldThenSeparator(h, ':', t3);
    }
    var t5 := d + ("T" + t4);
    assert StripSeparators(t5) == d + (h + (mi + (s + ms))) by {
      FieldThenSeparator(d, 'T', t4);
    }
    var t6 := mo + ("-" + t5);
    assert StripSeparators(t6) == mo + (d + (h + (mi + (s + ms)))) by {
      FieldThenSeparator(mo, '-', t5);
    }
    FieldThenSeparator(y, '-', t6);
  }

  /** Removing the separators of an ISO string leaves its seventeen digits. */
  lemma StripIso(i: Instant)
    requires ValidInstant(i)
    ensures StripSeparators(IsoString(i)) == Seconds(i) + Pad(i.millis, 3)
  {
    var y, mo, d, h, mi, s, ms := Pad(i.year, 4), Pad(i.month, 2), Pad(i.day, 2), Pad(i.hour, 2),
      Pad(i.minute, 2), Pad(i.second, 2), Pad(i.millis, 3);
    StripDigits(y); StripDigits(mo); StripDigits(d); StripDigits(h);
    StripDigits(mi); StripDigits(s); StripDigits(ms);
    StripFields(y, mo, d, h, mi, s, ms);
    assert y + (mo + (d + (h + (mi + (s + ms))))) == Seconds(i) + ms;
  }

  /** The stamp is `YYYYMMDDHHMMSS`: fourteen digits, the milliseconds cut off. */
  lemma StampIsSeconds(i: Instant)
    requires ValidInstant(i)
    ensures Stamp(i) == Seconds(i)
    ensures |Stamp(i)| == 14 && forall k :: 0 <= k < 14 ==> IsDigit(Stamp(i)[k])
  {
    StripIso(i);
    var digits := Seconds(i) + Pad(i.millis, 3);
    assert digits[..14] == Seconds(i);
    assert forall k :: 0 <= k < 14 ==> digits[k] == Seconds(i)[k];
  }

  /** Two clock readings give the same directory name exactly when they agree to the
      second: managers created within the same second share a directory, and readings in
      different seconds never do. */
  lemma SameDirIffSameSecond(a: Instant, b: Instant)
    requires ValidInstant(a) && ValidInstant(b)
    ensures ProjectDirName(a) == ProjectDirName(b) <==>
      (a.year, a.month, a.day, a.hour, a.minute, a.second) == (b.year, b.month, b.day, b.hour, b.minute, b.second)
  {
    StampIsSeconds(a);
    StampIsSeconds(b);
    if ProjectDirName(a) == ProjectDirName(b) {
      var sa, sb := Seconds(a), Seconds(b);
      assert sa == ProjectDirName(a)[8..] == ProjectDirName(b)[8..] == sb;
      assert Pow10(2) == 100 && Pow10(4) == 10000;
      assert sa[..4] == Pad(a.year, 4) && sb[..4] == Pad(b.year, 4);
      PadInjective(a.year, b.year, 4);
      assert sa[4..6] == Pad(a.month, 2) && sb[4..6] == Pad(b.month, 2);
      PadInjective(a.month, b.month, 2);
      assert sa[6..8] == Pad(a.day, 2) && sb[6..8] == Pad(b.day, 2);
      PadInjective(a.day, b.day, 2);
      assert sa[8..10] == Pad(a.hour, 2) && sb[8..10] == Pad(b.hour, 2);
      PadInjective(a.hour, b.hour, 2);
      assert sa[10..12] == Pad(a.minute, 2) && sb[10..12] == Pad(b.minute, 2);
      PadInjective(a.minute, b.minute, 2);
      assert sa[12..14] == Pad(a.second, 2) && sb[12..14] == Pad(b.second, 2);
      PadInjective(a.second, b.second, 2);
    }
  }
}
