/**
 * The string handling of WEB_QR_GEN/qr_generator.py: the URL typed into
 * the entry is stripped and given an `https://` scheme when it has none,
 * and the automatic save names the PNG file after the sanitised domain
 * and the time. The Tkinter widgets, the QR encoder and the file system
 * are not part of this model; `urlparse` is an input (the network
 * location it extracts, or `None` when it raises) and Python's
 * `str.isalnum` is a parameter.
 */
module QrNames {
  import opened Js

  // -----------------------------------------------------------------------
  // str.strip()

  /** The characters Python's `str.isspace` accepts, which `strip()` removes. */
  predicate IsSpace(c: char)
  {
    c == ' ' || '\t' <= c <= '\r' || '\U{1C}' <= c <= '\U{1F}' || c == '\U{85}' || c == '\U{A0}' ||
    c == '\U{1680}' || '\U{2000}' <= c <= '\U{200A}' || c == '\U{2028}' || c == '\U{2029}' ||
    c == '\U{202F}' || c == '\U{205F}' || c == '\U{3000}'
  }

  predicate AllSpace(s: string)
  {
    forall k :: 0 <= k < |s| ==> IsSpace(s[k])
  }

  /** `s.lstrip()`: the suffix that starts at the first non-space character. */
  function StripLeading(s: string): (r: string)
    ensures |r| <= |s| && r == s[|s| - |r|..]
    ensures AllSpace(s[..|s| - |r|])
    ensures r == [] || !IsSpace(r[0])
  {
    if s != [] && IsSpace(s[0]) then
      var r := StripLeading(s[1..]);
      SpaceThenSuffix(s, r);
      r
    else s
  }

  /** A space in front of a blank run that ends where the suffix `r` starts. */
  lemma SpaceThenSuffix(s: string, r: string)
    requires s != [] && IsSpace(s[0])
    requires |r| <= |s| - 1 && r == s[1..][|s| - 1 - |r|..] && AllSpace(s[1..][..|s| - 1 - |r|])
    ensures r == s[|s| - |r|..] && AllSpace(s[..|s| - |r|])
  {
    assert s[..|s| - |r|] == [s[0]] + s[1..][..|s| - 1 - |r|];
  }

  /** `s.rstrip()`: the prefix that ends at the last non-space character. */
  function StripTrailing(s: string): (r: string)
    ensures |r| <= |s| && r == s[..|r|]
    ensures AllSpace(s[|r|..])
    ensures r == [] || !IsSpace(r[|r| - 1])
    ensures s != [] && !IsSpace(s[0]) ==> r != []
  {
    if s != [] && IsSpace(s[|s| - 1]) then
      var r := StripTrailing(s[..|s| - 1]);
      PrefixThenSpace(s, r);
      r
    else s
  }

  /** A prefix `r` followed by a blank run that ends in a space. */
  lemma PrefixThenSpace(s: string, r: string)
    requires s != [] && IsSpace(s[|s| - 1])
    requires |r| <= |s| - 1 && r == s[..|s| - 1][..|r|] && AllSpace(s[..|s| - 1][|r|..])
    ensures r == s[..|r|] && AllSpace(s[|r|..])
    ensures |s| > 1 ==> s[..|s| - 1][0] == s[0]
  {
    assert s[|r|..] == s[..|s| - 1][|r|..] + [s[|s| - 1]];
  }

  /** `s.strip()`: no whitespace is left at either end. */
  function Strip(s: string): (r: string)
    ensures |r| <= |s|
    ensures r == [] || (!IsSpace(r[0]) && !IsSpace(r[|r| - 1]))
  {
    var l := StripLeading(s);
    var r := StripTrailing(l);
    assert r == [] || r[0] == l[0];
    r
  }

  /**
   * `r` is the slice of `s` that starts at `i`, and everything of `s` before
   * and after that slice is whitespace.
   */
  predicate MiddleOf(s: string, i: nat, r: string)
  {
    i + |r| <= |s| && r == s[i..i + |r|] && AllSpace(s[..i]) && AllSpace(s[i + |r|..])
  }

  /**
   * `strip()` keeps a contiguous middle piece of its input and drops only
   * whitespace before and after it.
   */
  lemma {:induction false} StripMiddle(s: string)
    ensures MiddleOf(s, |s| - |StripLeading(s)|, Strip(s))
  {
    var l := StripLeading(s);
    assert Strip(s) == StripTrailing(l);
    StripKeepsSlice(s, l, StripTrailing(l));
  }

  /** Both ends of `s` around the middle piece `r` of its suffix `l` are whitespace. */
  lemma {:induction false} StripKeepsSlice(s: string, l: string, r: string)
    requires |l| <= |s| && l == s[|s| - |l|..] && AllSpace(s[..|s| - |l|])
    requires |r| <= |l| && r == l[..|r|] && AllSpace(l[|r|..])
    ensures MiddleOf(s, |s| - |l|, r)
  {
    SliceOfSuffix(s, l, r);
  }

  /** A prefix `r` of the suffix `l` of `s` is a middle slice of `s`. */
  lemma {:induction false} SliceOfSuffix<T>(s: seq<T>, l: seq<T>, r: seq<T>)
    requires |l| <= |s| && l == s[|s| - |l|..]
    requires |r| <= |l| && r == l[..|r|]
    ensures var i := |s| - |l|; r == s[i..i + |r|] && l[|r|..] == s[i + |r|..]
  {
  }

  /** `lstrip()` empties exactly the blank strings. */
  lemma {:induction false} StripLeadingBlank(s: string)
    ensures StripLeading(s) == [] <==> AllSpace(s)
  {
    if s != [] && IsSpace(s[0]) {
      StripLeadingBlank(s[1..]);
      assert AllSpace(s) <==> AllSpace(s[1..]) by {
        assert forall k :: 1 <= k < |s| ==> s[k] == s[1..][k - 1];
      }
    }
  }

  /**
   * `strip()` yields the empty string exactly for blank input, and a
   * non-empty result starts and ends with a non-space character.
   */
  lemma {:induction false} StripFacts(s: string)
    ensures Strip(s) == [] <==> AllSpace(s)
  {
    var l := StripLeading(s);
    var r := StripTrailing(l);
    StripLeadingBlank(s);
    if l != [] {
      assert r[0] == l[0];
    }
  }

  /** Stripping twice is stripping once. */
  lemma StripIdempotent(s: string)
    ensures Strip(Strip(s)) == Strip(s)
  {
    StripFacts(s);
    var r := Strip(s);
    if r != [] {
      assert StripLeading(r) == r;
      assert StripTrailing(r) == r;
    }
  }

  // -----------------------------------------------------------------------
  // Scheme prefixing

  predicate HasScheme(url: string)
  {
    "http://" <= url || "https://" <= url
  }

  /** `url if url.startswith(("http://", "https://")) else "https://" + url`. */
  function Normalize(url: string): (r: string)
    ensures HasScheme(r)
    ensures HasScheme(url) ==> r == url
    ensures !HasScheme(url) ==> r == "https://" + url
  {
    if HasScheme(url) then url else "https://" + url
  }

  /** Normalising a normalised URL changes nothing. */
  lemma NormalizeIdempotent(url: string)
    ensures Normalize(Normalize(url)) == Normalize(url)
  {
  }

  /**
   * The URL `generate_qr` encodes from the entry text: `None` (a warning,
   * nothing generated) when the stripped text is empty.
   */
  function GenerateUrl(entry: string): (r: Option<string>)
    ensures r.None? <==> AllSpace(entry)
    ensures r.Some? ==> HasScheme(r.value) && r.value == Normalize(Strip(entry))
  {
    StripFacts(entry);
    var url := Strip(entry);
    if url == [] then None else Some(Normalize(url))
  }

  /** The URL `save_qr_code` re-encodes from the entry text; it has no emptiness check. */
  function SaveUrl(entry: string): (r: string)
    ensures HasScheme(r)
  {
    Normalize(Strip(entry))
  }

  /**
   * For the same entry text, the save path encodes the URL the generate
   * path encoded; a blank entry, which generate refuses, is saved as the
   * bare `https://`.
   */
  lemma {:induction false} SaveAgreesWithGenerate(entry: string)
    ensures GenerateUrl(entry).Some? ==> SaveUrl(entry) == GenerateUrl(entry).value
    ensures GenerateUrl(entry).None? ==> SaveUrl(entry) == "https://"
  {
    StripFacts(entry);
  }

  // -----------------------------------------------------------------------
  // The automatic file name

  /**
   * `s.replace("www.", "")`: a left-to-right scan that deletes each
   * occurrence it meets and resumes after it.
   */
  function RemoveWww(s: string): (r: string)
    ensures |r| <= |s|
    ensures !Contains(s, "www.") ==> r == s
    ensures Contains(s, "www.") ==> |r| <= |s| - 4
    decreases |s|
  {
    if s == [] then []
    else if "www." <= s then RemoveWww(s[4..])
    else [s[0]] + RemoveWww(s[1..])
  }

  /**
   * Text in front of the first occurrence is kept, the occurrence is
   * deleted, and the scan goes on after it.
   */
  lemma {:induction false} RemoveWwwFirst(a: string, b: string)
    requires !Contains(a + "www", "www.")
    ensures RemoveWww(a + "www." + b) == a + RemoveWww(b)
  {
    if a == [] {
      assert a + "www." + b == "www." + b && ("www." + b)[4..] == b;
    } else {
      RemoveWwwStep(a, b);
      RemoveWwwFirst(a[1..], b);
      HeadTailAppend(a, RemoveWww(b));
    }
  }

  lemma HeadTailAppend<T>(a: seq<T>, x: seq<T>)
    requires a != []
    ensures [a[0]] + (a[1..] + x) == a + x
  {
    assert a == [a[0]] + a[1..];
  }

  /** Before the first occurrence the scan keeps one character and moves on. */
  lemma RemoveWwwStep(a: string, b: string)
    requires a != [] && !Contains(a + "www", "www.")
    ensures !Contains(a[1..] + "www", "www.")
    ensures RemoveWww(a + "www." + b) == [a[0]] + RemoveWww(a[1..] + "www." + b)
  {
    var s, w := a + "www." + b, a + "www";
    assert w[1..] == a[1..] + "www";
    assert s[1..] == a[1..] + "www." + b;
    assert !("www." <= w) && s[..4] == w[..4];
  }

  /**
   * The replacement is a single pass: deleting an occurrence can join
   * the characters around it into a new one, which stays.
   */
  lemma WwwCanReappear()
    ensures RemoveWww("wwww.ww.") == "www."
    ensures RemoveWww(RemoveWww("wwww.ww.")) == ""
  {
    assert "wwww.ww."[1..] == "www.ww.";
    assert "www.ww."[4..] == "ww.";
    assert "ww."[1..] == "w." && "w."[1..] == ".";
  }

  /** A character that survives `c.isalnum() or c in ".-_"`. */
  predicate Allowed(c: char, isAlnum: char -> bool)
  {
    isAlnum(c) || c in ".-_"
  }

  /** `"".join(c for c in s if c.isalnum() or c in ".-_")`. */
  function KeepAllowed(s: string, isAlnum: char -> bool): (r: string)
    ensures |r| <= |s|
    ensures forall k :: 0 <= k < |r| ==> Allowed(r[k], isAlnum)
  {
    if s == [] then []
    else (if Allowed(s[0], isAlnum) then [s[0]] else []) + KeepAllowed(s[1..], isAlnum)
  }

  /** The filter keeps exactly the allowed characters of its input and nothing else. */
  lemma {:induction false} KeepAllowedMembers(s: string, isAlnum: char -> bool)
    ensures forall c :: c in KeepAllowed(s, isAlnum) <==> c in s && Allowed(c, isAlnum)
  {
    if s != [] {
      KeepAllowedMembers(s[1..], isAlnum);
      assert forall c :: c in s <==> c == s[0] || c in s[1..];
    }
  }

  /** A string made only of allowed characters passes the filter unchanged. */
  lemma {:induction false} KeepAllowedUnchanged(s: string, isAlnum: char -> bool)
    requires forall k :: 0 <= k < |s| ==> Allowed(s[k], isAlnum)
    ensures KeepAllowed(s, isAlnum) == s
  {
    if s != [] {
      KeepAllowedUnchanged(s[1..], isAlnum);
    }
  }

  /**
   * The filter keeps the order: the result for `a + b` is the result for
   * `a` followed by the result for `b`.
   */
  lemma {:induction false} KeepAllowedAppend(a: string, b: string, isAlnum: char -> bool)
    ensures KeepAllowed(a + b, isAlnum) == KeepAllowed(a, isAlnum) + KeepAllowed(b, isAlnum)
  {
    if a == [] {
      assert a + b == b;
    } else {
      var head: string := if Allowed(a[0], isAlnum) then [a[0]] else [];
      var x, y := KeepAllowed(a[1..], isAlnum), KeepAllowed(b, isAlnum);
      assert KeepAllowed(a + b, isAlnum) == head + (x + y) by {
        assert (a + b)[0] == a[0] && (a + b)[1..] == a[1..] + b;
        KeepAllowedAppend(a[1..], b, isAlnum);
      }
      assert head + (x + y) == (head + x) + y;
    }
  }

  /** A single character is kept exactly when it is allowed. */
  lemma KeepAllowedOne(c: char, isAlnum: char -> bool)
    ensures KeepAllowed([c], isAlnum) == if Allowed(c, isAlnum) then [c] else []
  {
    assert [c][1..] == [];
  }

  /** Python's `isalnum` accepts the ASCII letters and digits. */
  predicate AcceptsAsciiAlnum(isAlnum: char -> bool)
  {
    forall c: char :: ('a' <= c <= 'z' || 'A' <= c <= 'Z' || '0' <= c <= '9') ==> isAlnum(c)
  }

  /**
   * The domain part of the file name: the network location with `www.`
   * deleted and other characters filtered out, or `"qrcode"` when that
   * leaves nothing or `urlparse` raises (`netloc` is `None`).
   */
  function SafeDomain(netloc: Option<string>, isAlnum: char -> bool): (d: string)
    ensures d != []
    ensures netloc.Some? && KeepAllowed(RemoveWww(netloc.value), isAlnum) != [] ==>
              d == KeepAllowed(RemoveWww(netloc.value), isAlnum)
    ensures netloc.None? || KeepAllowed(RemoveWww(netloc.value), isAlnum) == [] ==> d == "qrcode"
    ensures d != "qrcode" ==> netloc.Some? && forall k :: 0 <= k < |d| ==> Allowed(d[k], isAlnum)
    ensures AcceptsAsciiAlnum(isAlnum) ==> forall k :: 0 <= k < |d| ==> Allowed(d[k], isAlnum)
  {
    if netloc.None? then "qrcode"
    else
      var domain := KeepAllowed(RemoveWww(netloc.value), isAlnum);
      if domain == [] then "qrcode" else domain
  }

  /** The local time `datetime.now()` returns, field by field. */
  datatype DateTime = DateTime(year: nat, month: nat, day: nat, hour: nat, minute: nat, second: nat)

  /** A time whose year has four digits; the other fields are in their calendar ranges. */
  predicate ValidDateTime(t: DateTime)
  {
    1000 <= t.year <= 9999 && 1 <= t.month <= 12 && 1 <= t.day <= 31 &&
    t.hour < 24 && t.minute < 60 && t.second < 60
  }

  /** Two decimal digits with a leading zero, as `%m`, `%d`, `%H`, `%M`, `%S` write them. */
  function Pad2(n: nat): (s: string)
    requires n < 100
    ensures |s| == 2 && AllDigits(s)
    ensures DigitsValue(s) == n
  {
    DigitCharValue(n / 10);
    DigitCharValue(n % 10);
    var s := [DigitChar(n / 10), DigitChar(n % 10)];
    assert s[..1] == [DigitChar(n / 10)] && s[..1][..0] == [];
    assert DigitsValue(s[..1]) == n / 10;
    assert DigitsValue(s) == (n / 10) * 10 + n % 10;
    s
  }

  /** Two digits read back as the number they were written from, so equal texts mean equal numbers. */
  lemma Pad2Injective(n: nat, m: nat)
    requires n < 100 && m < 100
    ensures Pad2(n) == Pad2(m) ==> n == m
  {
    DigitCharValue(n / 10);
    DigitCharValue(n % 10);
    DigitCharValue(m / 10);
    DigitCharValue(m % 10);
  }

  /** `strftime("%Y%m%d_%H%M%S")`. */
  function TimestampText(t: DateTime): (s: string)
    requires ValidDateTime(t)
    ensures |s| == 15 && s[8] == '_'
    ensures forall k :: 0 <= k < 15 && k != 8 ==> IsDigit(s[k])
  {
    Pad2(t.year / 100) + Pad2(t.year % 100) + Pad2(t.month) + Pad2(t.day) + "_" +
    Pad2(t.hour) + Pad2(t.minute) + Pad2(t.second)
  }

  /** Appending one digit shifts the value of a digit run by one decimal place. */
  lemma {:induction false} DigitsValueAppend1(a: string, c: char)
    requires AllDigits(a) && IsDigit(c)
    ensures AllDigits(a + [c]) && DigitsValue(a + [c]) == DigitsValue(a) * 10 + DigitValue(c)
  {
    assert (a + [c])[..|a + [c]| - 1] == a;
  }

  /** Appending a two-digit field shifts the value by two decimal places. */
  lemma {:induction false} DigitsValueAppend2(a: string, b: string)
    requires AllDigits(a) && AllDigits(b) && |b| == 2
    ensures AllDigits(a + b) && DigitsValue(a + b) == DigitsValue(a) * 100 + DigitsValue(b)
  {
    var v, d0, d1 := DigitsValue(a), DigitValue(b[0]), DigitValue(b[1]);
    DigitsValueAppend1(a, b[0]);
    DigitsValueAppend1(a + [b[0]], b[1]);
    assert a + b == a + [b[0]] + [b[1]];
    assert DigitsValue(a + b) == (v * 10 + d0) * 10 + d1;
    assert b[..1] == [b[0]] && b[..1][..0] == [];
    assert DigitsValue(b[..1]) == d0;
    assert b[..|b| - 1] == b[..1];
    assert DigitsValue(b) == d0 * 10 + d1;
  }

  /**
   * The timestamp reads back as the time it was written from: the year in
   * its first four digits, then month, day, `_`, hour, minute and second.
   */
  lemma TimestampFields(t: DateTime)
    requires ValidDateTime(t)
    ensures var s := TimestampText(t);
            AllDigits(s[..4]) && DigitsValue(s[..4]) == t.year &&
            AllDigits(s[4..6]) && DigitsValue(s[4..6]) == t.month &&
            AllDigits(s[6..8]) && DigitsValue(s[6..8]) == t.day &&
            AllDigits(s[9..11]) && DigitsValue(s[9..11]) == t.hour &&
            AllDigits(s[11..13]) && DigitsValue(s[11..13]) == t.minute &&
            AllDigits(s[13..15]) && DigitsValue(s[13..15]) == t.second
  {
    var s := TimestampText(t);
    var hi, lo := Pad2(t.year / 100), Pad2(t.year % 100);
    var year := hi + lo;
    var rest := Pad2(t.month) + Pad2(t.day) + "_" + Pad2(t.hour) + Pad2(t.minute) + Pad2(t.second);
    assert s == year + rest;
    assert s[..4] == year;
    assert s[4..6] == Pad2(t.month) && s[6..8] == Pad2(t.day);
    assert s[9..11] == Pad2(t.hour) && s[11..13] == Pad2(t.minute) && s[13..15] == Pad2(t.second);
    DigitsValueAppend2(hi, lo);
    assert DigitsValue(year) == (t.year / 100) * 100 + t.year % 100;
  }

  /** Two concatenations with equally long first parts are equal only part by part. */
  lemma ConcatInjective(a1: string, b1: string, a2: string, b2: string)
    requires |a1| == |a2| && a1 + b1 == a2 + b2
    ensures a1 == a2 && b1 == b2
  {
    assert a1 == (a1 + b1)[..|a1|] && a2 == (a2 + b2)[..|a2|];
    assert b1 == (a1 + b1)[|a1|..] && b2 == (a2 + b2)[|a2|..];
  }

  /** Different times give different timestamps, down to the second. */
  lemma {:induction false} TimestampInjective(t1: DateTime, t2: DateTime)
    requires ValidDateTime(t1) && ValidDateTime(t2)
    requires TimestampText(t1) == TimestampText(t2)
    ensures t1 == t2
  {
    var y1, y2 := Pad2(t1.year / 100) + Pad2(t1.year % 100), Pad2(t2.year / 100) + Pad2(t2.year % 100);
    var d1, d2 := y1 + Pad2(t1.month) + Pad2(t1.day) + "_", y2 + Pad2(t2.month) + Pad2(t2.day) + "_";
    var h1, h2 := d1 + Pad2(t1.hour) + Pad2(t1.minute), d2 + Pad2(t2.hour) + Pad2(t2.minute);
    ConcatInjective(h1, Pad2(t1.second), h2, Pad2(t2.second));
    ConcatInjective(d1 + Pad2(t1.hour), Pad2(t1.minute), d2 + Pad2(t2.hour), Pad2(t2.minute));
    ConcatInjective(d1, Pad2(t1.hour), d2, Pad2(t2.hour));
    ConcatInjective(y1 + Pad2(t1.month) + Pad2(t1.day), "_", y2 + Pad2(t2.month) + Pad2(t2.day), "_");
    ConcatInjective(y1 + Pad2(t1.month), Pad2(t1.day), y2 + Pad2(t2.month), Pad2(t2.day));
    ConcatInjective(y1, Pad2(t1.month), y2, Pad2(t2.month));
    ConcatInjective(Pad2(t1.year / 100), Pad2(t1.year % 100), Pad2(t2.year / 100), Pad2(t2.year % 100));
    Pad2Injective(t1.year / 100, t2.year / 100);
    Pad2Injective(t1.year % 100, t2.year % 100);
    Pad2Injective(t1.month, t2.month);
    Pad2Injective(t1.day, t2.day);
    Pad2Injective(t1.hour, t2.hour);
    Pad2Injective(t1.minute, t2.minute);
    Pad2Injective(t1.second, t2.second);
  }

  /** `f"{domain}_{timestamp}.png"`. */
  function FileName(domain: string, timestamp: string): (f: string)
    ensures |f| == |domain| + |timestamp| + 5
    ensures f[..|domain|] == domain && f[|domain|] == '_' && f[|domain| + 1..|f| - 4] == timestamp
    ensures ".png" <= f[|f| - 4..]
  {
    domain + "_" + timestamp + ".png"
  }

  /** With a 15-character timestamp, the file name determines both its domain and its timestamp. */
  lemma {:induction false} FileNameInjective(d1: string, ts1: string, d2: string, ts2: string)
    requires |ts1| == 15 && |ts2| == 15
    requires FileName(d1, ts1) == FileName(d2, ts2)
    ensures d1 == d2 && ts1 == ts2
  {
    var f := FileName(d1, ts1);
    assert |d1| == |d2|;
    assert f[..|d1|] == d1 && FileName(d2, ts2)[..|d2|] == d2;
    assert f[|d1| + 1..|d1| + 16] == ts1 && FileName(d2, ts2)[|d2| + 1..|d2| + 16] == ts2;
  }

  /**
   * The name `auto_save_qr_code` gives the file: a non-empty domain part,
   * an underscore, the timestamp and `.png`.
   */
  function AutoSaveName(netloc: Option<string>, isAlnum: char -> bool, now: DateTime): (f: string)
    requires ValidDateTime(now)
    ensures f == FileName(SafeDomain(netloc, isAlnum), TimestampText(now))
    ensures |f| >= 21 && f[|f| - 20] == '_' && f[|f| - 4..] == ".png"
  {
    FileName(SafeDomain(netloc, isAlnum), TimestampText(now))
  }
}
