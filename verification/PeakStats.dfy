/** The peak statistics that sndlibsupport.c prints into a sound file's comment and reads back.
    C strings are strings up to their terminator; a peak is the decimal numeral printed for it. */
module PeakStats {
  const MAX_COMMENT_CHARS := 512
  const MAX_PEAK_CHARS := 256
  const MAXCHANS := 8
  const PEAK_TAG := "[maxamp:"
  const COMMENT_START_CHAR := 1 as char
  const LONG_MIN := -0x8000_0000_0000_0000
  const LONG_MAX := 0x7fff_ffff_ffff_ffff

  datatype Option<T> = None | Some(value: T)

  /** One channel's peak and the frame it is at. */
  datatype Stat = Stat(amp: string, loc: int)

  // ---- Decimal integers, as %ld prints them and strtol reads them.

  predicate IsDigit(c: char) { '0' <= c <= '9' }

  predicate AllDigits(t: string) {
    forall i :: 0 <= i < |t| ==> IsDigit(t[i])
  }

  function DecNat(n: nat): (t: string)
    ensures t != "" && AllDigits(t)
  {
    if n < 10 then ['0' + n as char] else DecNat(n / 10) + ['0' + (n % 10) as char]
  }

  function Dec(n: int): string { if n < 0 then "-" + DecNat(-n) else DecNat(n) }

  function NatOf(t: string): nat
    requires AllDigits(t)
  {
    if t == "" then 0 else NatOf(t[..|t| - 1]) * 10 + (t[|t| - 1] - '0') as nat
  }

  lemma {:induction false} NatOfDec(n: nat)
    ensures NatOf(DecNat(n)) == n
  {
    var t := DecNat(n);
    if n < 10 {
      assert t[..0] == "";
    } else {
      NatOfDec(n / 10);
      assert t[..|t| - 1] == DecNat(n / 10);
    }
  }

  // ---- The C library's scanners.  A position at the end of the string is at its terminator.

  predicate IsSpace(c: char) { c == ' ' || '\t' <= c <= '\r' }

  predicate IsSign(c: char) { c == '+' || c == '-' }

  predicate Has(s: string, p: nat, c: char) { p < |s| && s[p] == c }

  function SkipSpaces(s: string, p: nat): (q: nat)
    requires p <= |s|
    ensures p <= q <= |s|
    decreases |s| - p
  {
    if p < |s| && IsSpace(s[p]) then SkipSpaces(s, p + 1) else p
  }

  function SkipSign(s: string, p: nat): (q: nat)
    requires p <= |s|
    ensures p <= q <= |s|
  {
    if p < |s| && IsSign(s[p]) then p + 1 else p
  }

  function DigitsEnd(s: string, p: nat): (q: nat)
    requires p <= |s|
    ensures p <= q <= |s| && AllDigits(s[p..q])
    decreases |s| - p
  {
    if p < |s| && IsDigit(s[p]) then DigitsEnd(s, p + 1) else p
  }

  /** The end of an exponent at p, or p if there is none. */
  function ExponentEnd(s: string, p: nat): (q: nat)
    requires p <= |s|
    ensures p <= q <= |s|
  {
    if Has(s, p, 'e') || Has(s, p, 'E') then
      var a := SkipSign(s, p + 1);
      if DigitsEnd(s, a) > a then DigitsEnd(s, a) else p
    else p
  }

  /** The end of a decimal numeral at p, or p if there is none. */
  function NumeralEnd(s: string, p: nat): (q: nat)
    requires p <= |s|
    ensures p <= q <= |s|
  {
    var a := SkipSign(s, p);
    var b := DigitsEnd(s, a);
    var d := if Has(s, b, '.') then DigitsEnd(s, b + 1) else b;
    if b == a && d <= b + 1 then p else ExponentEnd(s, d)
  }

  /** What strtod and strtol give back: the value and where they stopped. */
  datatype Scan<T> = NoConversion | Scan(value: T, end: nat)

  function StrToD(s: string, p: nat): (r: Scan<string>)
    requires p <= |s|
    ensures r.Scan? ==> p < r.end <= |s|
  {
    var a := SkipSpaces(s, p);
    var b := NumeralEnd(s, a);
    if b == a then NoConversion else Scan(s[a..b], b)
  }

  function StrToL(s: string, p: nat): (r: Scan<int>)
    requires p <= |s|
    ensures r.Scan? ==> p < r.end <= |s|
  {
    var q := SkipSpaces(s, p);
    var a := SkipSign(s, q);
    var b := DigitsEnd(s, a);
    if b == a then NoConversion
    else
      var v: int := NatOf(s[a..b]);
      Scan(if Has(s, q, '-') then -v else v, b)
  }

  predicate IsLong(n: int) { LONG_MIN <= n <= LONG_MAX }

  /** strchr: the first c from p on, or the end of the string. */
  function StrChr(s: string, p: nat, c: char): (q: nat)
    requires p <= |s|
    ensures p <= q <= |s| && (q < |s| ==> s[q] == c)
    ensures forall i :: p <= i < q ==> s[i] != c
    decreases |s| - p
  {
    if p == |s| || s[p] == c then p else StrChr(s, p + 1, c)
  }

  /** strrchr: one past the last c, or 0 when there is none. */
  function PastLast(s: string, c: char): (q: nat)
    ensures q <= |s| && (q > 0 ==> s[q - 1] == c)
    ensures forall i :: q <= i < |s| ==> s[i] != c
  {
    if s == "" then 0 else if s[|s| - 1] == c then |s| else PastLast(s[..|s| - 1], c)
  }

  /** The text t stands in s at p. */
  predicate At(s: string, p: nat, t: string) { p + |t| <= |s| && s[p..p + |t|] == t }

  lemma AtParts(s: string, p: nat, t: string, u: string)
    requires At(s, p, t + u)
    ensures At(s, p, t) && At(s, p + |t|, u)
  {
    assert s[p..p + |t|] == (t + u)[..|t|] == t;
    assert s[p + |t|..p + |t + u|] == (t + u)[|t|..] == u;
  }

  lemma ThreeParts(s: string, k: nat, t: string, u: string, v: string)
    requires At(s, k, t + (u + v))
    ensures At(s, k, t) && At(s, k + |t|, u) && At(s, k + |t| + |u|, v)
  {
    hide *;
    AtParts(s, k, t, u + v);
    AtParts(s, k + |t|, u, v);
  }

  lemma AtIndex(s: string, p: nat, t: string, i: nat)
    requires At(s, p, t) && i < |t|
    ensures p + i < |s| && s[p + i] == t[i]
  {
    assert s[p..p + |t|][i] == t[i];
  }

  // ---- Printing.

  /** A channel's text, followed by a comma or another character. */
  function StatText(st: Stat): string { ClosedText(st, ',') }

  function ClosedText(st: Stat, d: char): string { " " + st.amp + " at " + Dec(st.loc) + [d] }

  function Listed(stats: seq<Stat>): string {
    if stats == [] then "" else Listed(stats[..|stats| - 1]) + StatText(stats[|stats| - 1])
  }

  /** The whole peak text, whose last comma has become a semicolon. */
  function PeakText(stats: seq<Stat>, timetag: int): string {
    var head := PEAK_TAG + Listed(stats);
    head[..|head| - 1] + ";" + " time=" + Dec(timetag) + "]"
  }

  /** The comment with the peak text on a line of its own. */
  function RawComment(comment: string, peaks: string): string {
    comment + (if comment != "" && peaks != "" then "\n" else "") + peaks
  }

  // ---- Parsing.

  /** One channel's peak and location, and where strtol stopped.  inRange says which numerals
      strtod converts without overflow or underflow. */
  function ReadStat(s: string, p: nat, inRange: string -> bool): (r: Option<(Stat, nat)>)
    requires p <= |s|
    ensures r.Some? ==> p < r.value.1 <= |s|
  {
    var peak := StrToD(s, p);
    if peak.NoConversion? || !inRange(peak.value) then None
    else
      var a := StrChr(s, p, 'a');
      if a == |s| || !Has(s, a + 1, 't') then None
      else
        var loc := StrToL(s, a + 2);
        if loc.NoConversion? || !IsLong(loc.value) then None
        else Some((Stat(peak.value, loc.value), loc.end))
  }

  /** The channels from p on, at most `left` of them, up to a semicolon, and where that is. */
  function ReadStats(s: string, p: nat, left: nat, inRange: string -> bool): (r: Option<(seq<Stat>, nat)>)
    requires p <= |s|
    ensures r.Some? ==> r.value.1 < |s| && |r.value.0| <= left
    decreases left
  {
    if left == 0 then None
    else
      var one := ReadStat(s, p, inRange);
      if one.None? then None
      else
        var (st, pos) := one.value;
        if Has(s, pos, ';') then Some(([st], pos))
        else if pos == |s| then None
        else
          var rest := ReadStats(s, pos + 1, left - 1, inRange);
          if rest.None? then None else Some(([st] + rest.value.0, rest.value.1))
  }

  /** The peak statistics introduced by the tag at p, and their time. */
  function ReadTagged(s: string, p: nat, nchans: nat, inRange: string -> bool): (r: Option<(seq<Stat>, int)>)
    requires p <= |s|
    ensures r.Some? ==> |r.value.0| <= nchans
  {
    var colon := StrChr(s, p, ':');
    if colon == |s| then None
    else
      var stats := ReadStats(s, colon + 1, nchans, inRange);
      if stats.None? then None
      else
        var eq := StrChr(s, stats.value.1, '=');
        if eq == |s| then None
        else
          var time := StrToL(s, eq + 1);
          if time.NoConversion? || !IsLong(time.value) then None
          else Some((stats.value.0, time.value))
  }

  predicate TagAt(s: string, p: nat) { p <= |s| && PEAK_TAG <= s[p..] }

  /** The search for the tag looks at the last bracket only. */
  predicate Stuck(buf: string) {
    var q := PastLast(buf, '[');
    q > 1 && !TagAt(buf, q - 1)
  }

  function TagPlace(buf: string): (r: Option<nat>)
    ensures r.Some? ==> r.value < |buf|
  {
    var q := PastLast(buf, '[');
    if q > 0 && TagAt(buf, q - 1) then Some(q - 1) else None
  }

  /** What the caller finds in the struct. */
  datatype Reading = Reading(offset: int, comment: string, stats: seq<Stat>, timetag: int)

  function Min(a: nat, b: nat): nat { if a < b then a else b }

  /** The comment field's text without the peak text that starts at k and the newline before it. */
  function Chopped(buf: string, k: nat, maxchars: nat): string
    requires k <= |buf|
  {
    if k >= maxchars then buf[..Min(|buf|, maxchars)]
    else if k > 0 && buf[k - 1] == '\n' then buf[..k - 1]
    else buf[..k]
  }

  datatype ByteOrder = BigEndian | LittleEndian

  /** What the last byte of a long of 64 bits counts for. */
  function LastByteWeight(order: ByteOrder): nat { if order == BigEndian then 1 else 0x100_0000_0000_0000 }

  function LastStoredByte(n: int, order: ByteOrder): (b: nat)
    ensures b < 256
  {
    n / LastByteWeight(order) % 256
  }

  /** The comment field lies right after the time in the struct.  When the peak text starts the
      comment, the byte that is cleared if it is a newline is therefore the time's last one. */
  function TimeLeft(timetag: int, offset: nat, order: ByteOrder): int {
    if offset == 0 && LastStoredByte(timetag, order) == 10 then timetag - 10 * LastByteWeight(order) else timetag
  }

  /** The reading of a comment field of len bytes whose text is buf. */
  function ReadComment(buf: string, len: nat, nchans: nat, order: ByteOrder, inRange: string -> bool): Reading
    requires |buf| <= len
  {
    if len == 0 || Has(buf, 0, COMMENT_START_CHAR) then Reading(-1, "", [], 0)
    else
      var maxchars := Min(len, MAX_COMMENT_CHARS - 1);
      var place := TagPlace(buf);
      var r := if place.Some? then ReadTagged(buf, place.value, nchans, inRange) else None;
      if r.None? then Reading(-1, buf[..Min(|buf|, maxchars)], [], 0)
      else
        var time := TimeLeft(r.value.1, place.value, order);
        Reading(place.value, Chopped(buf, place.value, maxchars), r.value.0, time)
  }

  class SFComment {
    var offset: int
    const peak: array<string>
    const peakloc: array<int>
    var timetag: int
    var comment: string

    predicate Valid()
      reads this
    {
      peak.Length == peakloc.Length == MAXCHANS && |comment| < MAX_COMMENT_CHARS
    }

    ghost function Stats(n: nat): (stats: seq<Stat>)
      requires Valid() && n <= MAXCHANS
      reads this, peak, peakloc
      ensures |stats| == n && forall i :: 0 <= i < n ==> stats[i] == Stat(peak[i], peakloc[i])
    {
      seq(n, i requires 0 <= i < n reads this, peak, peakloc => Stat(peak[i], peakloc[i]))
    }

    constructor ()
      ensures Valid() && fresh(peak) && fresh(peakloc) && offset == -1 && timetag == 0 && comment == ""
    {
      offset, timetag, comment := -1, 0, "";
      peak := new string[MAXCHANS](_ => "");
      peakloc := new int[MAXCHANS](_ => 0);
    }

    /** The peak statistics text: the list is printed with a comma after each channel, and the
        last comma is overwritten. */
    method PrintPeaks(nchans: nat) returns (peakstr: string)
      requires Valid() && nchans <= MAXCHANS
      ensures peakstr == PeakText(Stats(nchans), timetag)
    {
      hide Dec;
      peakstr := PEAK_TAG;
      for n := 0 to nchans
        invariant peakstr == PEAK_TAG + Listed(Stats(n))
      {
        assert Stats(n + 1)[..n] == Stats(n);
        var tmp := StatText(Stat(peak[n], peakloc[n]));
        peakstr := peakstr + tmp;
      }
      ghost var head := peakstr;
      peakstr := peakstr[|peakstr| - 1 := ';'];
      assert peakstr == head[..|head| - 1] + ";";
      peakstr := peakstr + " time=" + Dec(timetag) + "]";
    }

    /** format_raw_comment. */
    method FormatRawComment(nchans: nat) returns (ok: bool, rawcomment: string)
      requires Valid() && nchans <= MAXCHANS
      ensures
        var peaks := if offset == -1 then "" else PeakText(Stats(nchans), timetag);
        ok == (|peaks| < MAX_PEAK_CHARS) && (ok ==> rawcomment == RawComment(comment, peaks))
    {
      hide PeakText, Stats;
      ok, rawcomment := true, "";
      var peakstr := "";
      if offset != -1 {
        peakstr := PrintPeaks(nchans);
        if |peakstr| >= MAX_PEAK_CHARS {
          ok := false;
          return;
        }
      }
      rawcomment := comment;
      if peakstr != "" && rawcomment != "" {
        rawcomment := rawcomment + "\n";
      }
      rawcomment := rawcomment + peakstr;
    }

    /** The search backwards for the tag.  It ends only when the last bracket is the tag's or
        the first character. */
    static method FindTag(buf: string) returns (found: bool, pstr: nat)
      requires !Stuck(buf)
      ensures found == TagPlace(buf).Some? && (found ==> pstr == TagPlace(buf).value)
    {
      found, pstr := false, 0;
      var more := true;
      while more
        invariant more ==> pstr == 0 && !found
        invariant !more ==> found == TagPlace(buf).Some? && (found ==> pstr == TagPlace(buf).value)
        decreases more
      {
        var q := PastLast(buf[pstr..], '[');
        assert buf[pstr..] == buf;
        if q == 0 {
          more := false;
        } else {
          pstr := pstr + q - 1;
          found := PEAK_TAG <= buf[pstr..];
          more := !found && pstr != 0;
        }
      }
    }

    /** One channel's turn of the parsing loop. */
    method ReadChannel(s: string, start: nat, n: nat, inRange: string -> bool) returns (ok: bool, pos: nat)
      requires Valid() && n < MAXCHANS && start <= |s|
      modifies peak, peakloc
      ensures
        var r := ReadStat(s, start, inRange);
        ok == r.Some? && (ok ==> r.value == (Stat(peak[n], peakloc[n]), pos))
      ensures forall i :: 0 <= i < MAXCHANS && i != n ==> peak[i] == old(peak[i]) && peakloc[i] == old(peakloc[i])
    {
      hide StrToD, StrToL, StrChr, IsLong;
      ok, pos := false, 0;
      var amp := StrToD(s, start);
      if amp.NoConversion? || !inRange(amp.value) {
        return;
      }
      peak[n] := amp.value;
      var p := StrChr(s, start, 'a');
      if p == |s| || !Has(s, p + 1, 't') {
        return;
      }
      p := p + 2;
      var loc := StrToL(s, p);
      if loc.NoConversion? || !IsLong(loc.value) {
        return;
      }
      peakloc[n] := loc.value;
      ok, pos := true, loc.end;
    }

    /** The parsing loop, which ends at a semicolon or after the last channel. */
    method ReadChannels(s: string, start: nat, nchans: nat, inRange: string -> bool)
      returns (ok: bool, pos: nat, ghost count: nat)
      requires Valid() && 1 <= nchans <= MAXCHANS && start <= |s|
      modifies peak, peakloc
      ensures ok == ReadStats(s, start, nchans, inRange).Some?
      ensures ok ==> count <= nchans && ReadStats(s, start, nchans, inRange).value == (Stats(count), pos)
    {
      hide ReadStat, ReadStats, Joined;
      var p: nat := start;
      pos, count := start, 0;
      JoinedNothing(ReadStats(s, p, nchans, inRange));
      var n: nat := 0;
      while n < nchans
        invariant n <= nchans && p <= |s|
        invariant Joined(Stats(n), ReadStats(s, p, nchans - n, inRange)) == ReadStats(s, start, nchans, inRange)
      {
        ghost var before := Stats(n);
        ok, pos := ReadChannel(s, p, n, inRange);
        OneMore(before, s, p, nchans - n, inRange);
        if !ok {
          return;
        }
        assert Stats(n + 1) == before + [Stat(peak[n], peakloc[n])];
        count := n + 1;
        if Has(s, pos, ';') {
          return;
        }
        if pos == |s| {
          return false, pos, count;
        }
        p := pos + 1;
        n := n + 1;
      }
      NoneLeft(Stats(n), s, p, inRange);
      ok := false;
    }

    /** sndlib_get_current_header_comment, from a comment field of len bytes on. */
    method GetComment(buf: string, len: nat, nchans: nat, order: ByteOrder, inRange: string -> bool)
      requires Valid() && 1 <= nchans <= MAXCHANS && |buf| <= len
      requires len == 0 || Has(buf, 0, COMMENT_START_CHAR) || !Stuck(buf)
      modifies this, peak, peakloc
      ensures
        var r := ReadComment(buf, len, nchans, order, inRange);
        && Valid() && offset == r.offset && comment == r.comment && timetag == r.timetag
        && |r.stats| <= nchans && Stats(|r.stats|) == r.stats
    {
      hide ReadStats, StrToL, TagAt, TagPlace, Stuck, StrChr, Has;
      offset, comment, timetag := -1, "", 0;
      if len == 0 || Has(buf, 0, COMMENT_START_CHAR) {
        return;
      }
      var maxchars := Min(len, MAX_COMMENT_CHARS - 1);
      var found, pstr := FindTag(buf);
      comment := buf[..Min(|buf|, maxchars)];
      if found {
        var p := StrChr(buf, pstr, ':');
        if p == |buf| {
          return;
        }
        var ok, pos;
        ghost var count;
        ok, pos, count := ReadChannels(buf, p + 1, nchans, inRange);
        if !ok {
          return;
        }
        p := StrChr(buf, pos, '=');
        if p == |buf| {
          return;
        }
        var time := StrToL(buf, p + 1);
        if time.NoConversion? || !IsLong(time.value) {
          return;
        }
        offset, timetag := pstr, time.value;
        if offset < maxchars {
          var ind := offset;
          if ind == 0 {
            // comment[ind - 1] is the last byte of timetag.
            if LastStoredByte(timetag, order) == 10 {
              timetag := timetag - 10 * LastByteWeight(order);
            }
          } else if comment[ind - 1] == '\n' {
            ind := ind - 1;
          }
          comment := comment[..ind];
        }
      }
    }
  }

  lemma JoinedNothing(r: Option<(seq<Stat>, nat)>)
    ensures Joined([], r) == r
  {
    if r.Some? {
      assert [] + r.value.0 == r.value.0;
    }
  }

  lemma NoneLeft(stats: seq<Stat>, s: string, p: nat, inRange: string -> bool)
    requires p <= |s|
    ensures Joined(stats, ReadStats(s, p, 0, inRange)) == None
  {
  }

  /** What one more channel makes of the parse. */
  lemma OneMore(stats: seq<Stat>, s: string, p: nat, left: nat, inRange: string -> bool)
    requires p <= |s| && left > 0
    ensures
      var one := ReadStat(s, p, inRange);
      Joined(stats, ReadStats(s, p, left, inRange)) ==
        if one.None? then None
        else
          var (st, pos) := one.value;
          if Has(s, pos, ';') then Some((stats + [st], pos))
          else if pos == |s| then None
          else Joined(stats + [st], ReadStats(s, pos + 1, left - 1, inRange))
  {
    hide ReadStat;
    var one := ReadStat(s, p, inRange);
    if one.Some? && one.value.1 < |s| && !Has(s, one.value.1, ';') {
      var rest := ReadStats(s, one.value.1 + 1, left - 1, inRange);
      if rest.Some? {
        assert stats + ([one.value.0] + rest.value.0) == (stats + [one.value.0]) + rest.value.0;
      }
    }
  }

  /** A list continued by the rest of the parse. */
  function Joined(stats: seq<Stat>, rest: Option<(seq<Stat>, nat)>): Option<(seq<Stat>, nat)> {
    if rest.None? then None else Some((stats + rest.value.0, rest.value.1))
  }

  // ---- The search that may not end.

  /** One round of the search: from pstr to the last bracket at or after it. */
  datatype Search = Searching(pstr: nat) | Ended(found: bool)

  function SearchRound(buf: string, st: Search): Search {
    if st.Ended? || st.pstr > |buf| then st
    else
      var q := PastLast(buf[st.pstr..], '[');
      if q == 0 then Ended(false)
      else
        var pstr := st.pstr + q - 1;
        if TagAt(buf, pstr) then Ended(true) else if pstr == 0 then Ended(false) else Searching(pstr)
  }

  function SearchAfter(buf: string, rounds: nat): Search {
    if rounds == 0 then Searching(0) else SearchRound(buf, SearchAfter(buf, rounds - 1))
  }

  /** From the last bracket the search finds that bracket again. */
  lemma {:induction false} SearchStays(buf: string, rounds: nat)
    requires Stuck(buf) && rounds >= 1
    ensures SearchAfter(buf, rounds) == Searching(PastLast(buf, '[') - 1)
  {
    hide PastLast;
    if rounds == 1 {
      assert buf[0..] == buf;
      assert SearchAfter(buf, 0) == Searching(0);
    } else {
      SearchStays(buf, rounds - 1);
      LastFromItself(buf, '[');
    }
  }

  lemma LastFromItself(s: string, c: char)
    requires PastLast(s, c) > 0
    ensures PastLast(s[PastLast(s, c) - 1..], c) == 1
  {
    var k := PastLast(s, c) - 1;
    var q := PastLast(s[k..], c);
    assert s[k..][0] == c;
  }

  /** The search ends, after one round, exactly when the last bracket is missing, starts the tag
      or starts the string; otherwise it goes on for ever. */
  lemma SearchEndsExactlyWhen(buf: string)
    ensures (exists rounds :: SearchAfter(buf, rounds).Ended?) <==> !Stuck(buf)
    ensures !Stuck(buf) ==> SearchAfter(buf, 1) == Ended(TagPlace(buf).Some?)
  {
    if Stuck(buf) {
      forall rounds ensures !SearchAfter(buf, rounds).Ended? {
        if rounds > 0 {
          SearchStays(buf, rounds);
        }
      }
    } else {
      assert buf[0..] == buf;
      assert SearchAfter(buf, 0) == Searching(0);
      assert SearchAfter(buf, 1).Ended?;
    }
  }

  /** A bracket in the middle of a comment without statistics is enough to keep it going. */
  lemma BracketInComment()
    ensures Stuck("a[b") && forall rounds :: !SearchAfter("a[b", rounds).Ended?
  {
    var s := "a[b";
    assert s[..2] == "a[" && s[1..] == "[b";
    assert s[2] == 'b' && PastLast(s[..2], '[') == 2;
    assert PastLast(s, '[') == 2;
    assert "[b"[1] == 'b' && PEAK_TAG[1] == 'm';
    SearchEndsExactlyWhen(s);
  }

  // ---- Reading back what was printed.

  predicate NumeralChar(c: char) { IsDigit(c) || IsSign(c) || c == '.' || c == 'e' || c == 'E' }

  /** A numeral such as %.9g prints for a finite number. */
  predicate IsNumeral(t: string) {
    t != "" && NumeralEnd(t, 0) == |t| && forall i :: 0 <= i < |t| ==> NumeralChar(t[i])
  }

  /** A run of digits inside t ends where it does inside a longer string, unless it reaches the
      end of t and a digit follows. */
  lemma {:induction false} DigitsEndIn(s: string, p: nat, t: string, i: nat)
    requires At(s, p, t) && i <= |t|
    requires p + |t| < |s| ==> !IsDigit(s[p + |t|])
    ensures DigitsEnd(s, p + i) == p + DigitsEnd(t, i)
    decreases |t| - i
  {
    if i < |t| {
      AtIndex(s, p, t, i);
      if IsDigit(t[i]) {
        DigitsEndIn(s, p, t, i + 1);
      }
    }
  }

  lemma HasIn(s: string, p: nat, t: string, i: nat, c: char)
    requires At(s, p, t) && i <= |t| && Has(s, p + |t|, ' ') && c != ' '
    ensures Has(s, p + i, c) == Has(t, i, c)
  {
    if i < |t| {
      AtIndex(s, p, t, i);
    }
  }

  lemma SkipSignIn(s: string, p: nat, t: string, i: nat)
    requires At(s, p, t) && i <= |t| && Has(s, p + |t|, ' ')
    ensures SkipSign(s, p + i) == p + SkipSign(t, i)
  {
    if i < |t| {
      AtIndex(s, p, t, i);
    }
  }

  lemma ExponentEndIn(s: string, p: nat, t: string, i: nat)
    requires At(s, p, t) && i <= |t| && Has(s, p + |t|, ' ')
    ensures ExponentEnd(s, p + i) == p + ExponentEnd(t, i)
  {
    HasIn(s, p, t, i, 'e');
    HasIn(s, p, t, i, 'E');
    if Has(t, i, 'e') || Has(t, i, 'E') {
      SkipSignIn(s, p, t, i + 1);
      DigitsEndIn(s, p, t, SkipSign(t, i + 1));
    }
  }

  /** A numeral followed by a space is scanned as it is by itself. */
  lemma NumeralEndIn(s: string, p: nat, t: string)
    requires At(s, p, t) && Has(s, p + |t|, ' ')
    ensures NumeralEnd(s, p) == p + NumeralEnd(t, 0)
  {
    hide ExponentEnd, DigitsEnd, SkipSign, Has;
    assert !IsDigit(' ') && s[p + |t|] == ' ' by { SpaceAt(s, p + |t|); }
    SkipSignIn(s, p, t, 0);
    var a := SkipSign(t, 0);
    DigitsEndIn(s, p, t, a);
    var b := DigitsEnd(t, a);
    HasIn(s, p, t, b, '.');
    if Has(t, b, '.') {
      DotInside(t, b);
      DigitsEndIn(s, p, t, b + 1);
      ExponentEndIn(s, p, t, DigitsEnd(t, b + 1));
    }
    ExponentEndIn(s, p, t, b);
  }

  lemma SpaceAt(s: string, p: nat)
    requires Has(s, p, ' ')
    ensures p < |s| && s[p] == ' '
  {
  }

  lemma DotInside(t: string, b: nat)
    requires Has(t, b, '.')
    ensures b < |t|
  {
  }

  /** The list of channels as it reads from the front. */
  function Body(stats: seq<Stat>): string
    requires stats != []
  {
    if |stats| == 1 then ClosedText(stats[0], ';') else ClosedText(stats[0], ',') + Body(stats[1..])
  }

  lemma {:induction false} ListedFromFront(stats: seq<Stat>)
    requires stats != []
    ensures Listed(stats) == StatText(stats[0]) + Listed(stats[1..])
  {
    hide StatText;
    var n := |stats| - 1;
    if n > 0 {
      ListedFromFront(stats[..n]);
      assert stats[..n][1..] == stats[1..][..n - 1];
    }
  }

  /** Overwriting the last comma turns the printed list into the list read from the front. */
  lemma {:induction false} ListedIsBody(stats: seq<Stat>)
    requires stats != []
    ensures Listed(stats) != "" && Listed(stats)[..|Listed(stats)| - 1] + ";" == Body(stats)
  {
    hide ClosedText;
    ListedFromFront(stats);
    var st, u := stats[0], Listed(stats[1..]);
    Reclosed(st);
    if |stats| == 1 {
      assert u == "" && StatText(st) + "" == StatText(st);
    } else {
      ListedIsBody(stats[1..]);
      DropsLast(StatText(st), u);
    }
  }

  lemma Reclosed(st: Stat)
    ensures
      var t := ClosedText(st, ',');
      t != "" && t[..|t| - 1] + ";" == ClosedText(st, ';')
  {
    hide Dec;
  }

  lemma DropsLast(t: string, u: string)
    requires u != ""
    ensures (t + u)[..|t + u| - 1] + ";" == t + (u[..|u| - 1] + ";")
  {
  }

  /** What follows the list of channels. */
  function TimeText(timetag: int): string { " time=" + (Dec(timetag) + "]") }

  lemma PeakTextIs(stats: seq<Stat>, timetag: int)
    requires stats != []
    ensures PeakText(stats, timetag) == PEAK_TAG + (Body(stats) + TimeText(timetag))
  {
    hide Dec;
    ListedIsBody(stats);
    hide Body, Listed;
    var l := Listed(stats);
    var head := PEAK_TAG + l;
    assert head[..|head| - 1] == PEAK_TAG + l[..|l| - 1];
  }

  predicate Printable(st: Stat, inRange: string -> bool) {
    IsNumeral(st.amp) && inRange(st.amp) && IsLong(st.loc)
  }

  /** strtol reads back what %ld printed. */
  lemma StrToLIn(s: string, p: nat, q: nat, n: int)
    requires p <= q <= |s| && SkipSpaces(s, p) == q && At(s, q, Dec(n))
    requires q + |Dec(n)| < |s| && !IsDigit(s[q + |Dec(n)|])
    ensures StrToL(s, p) == Scan(n, q + |Dec(n)|)
  {
    hide *;
    var m, a := if n < 0 then -n else n, if n < 0 then q + 1 else q;
    SignOfDec(s, q, n);
    DigitsOfDec(s, a, m);
    StrToLIs(s, p, q, a, a + |DecNat(m)|, n);
  }

  lemma StrToLIs(s: string, p: nat, q: nat, a: nat, b: nat, n: int)
    requires p <= q <= |s| && SkipSpaces(s, p) == q && SkipSign(s, q) == a && a < b && DigitsEnd(s, a) == b
    requires Has(s, q, '-') == (n < 0) && NatOf(s[a..b]) == if n < 0 then -n else n
    ensures StrToL(s, p) == Scan(n, b)
  {
    hide SkipSpaces, SkipSign, DigitsEnd, NatOf, Has;
  }

  lemma DigitsOfDec(s: string, a: nat, m: nat)
    requires At(s, a, DecNat(m))
    requires a + |DecNat(m)| < |s| && !IsDigit(s[a + |DecNat(m)|])
    ensures
      var b := a + |DecNat(m)|;
      DigitsEnd(s, a) == b && AllDigits(s[a..b]) && NatOf(s[a..b]) == m
  {
    DigitsEndIn(s, a, DecNat(m), 0);
    AllDigitsEnd(DecNat(m), 0);
    NatOfDec(m);
    hide DigitsEnd, DecNat, NatOf, IsDigit;
  }

  /** The sign and the digits of a printed integer. */
  lemma SignOfDec(s: string, q: nat, n: int)
    requires At(s, q, Dec(n))
    ensures
      var a := if n < 0 then q + 1 else q;
      var t := DecNat(if n < 0 then -n else n);
      SkipSign(s, q) == a && Has(s, q, '-') == (n < 0) && At(s, a, t) && a + |t| == q + |Dec(n)|
  {
    var t := DecNat(if n < 0 then -n else n);
    hide DecNat;
    AtIndex(s, q, Dec(n), 0);
    if n < 0 {
      AtParts(s, q, "-", t);
    }
  }

  lemma {:induction false} AllDigitsEnd(t: string, i: nat)
    requires AllDigits(t) && i <= |t|
    ensures DigitsEnd(t, i) == |t|
    decreases |t| - i
  {
    if i < |t| {
      AllDigitsEnd(t, i + 1);
    }
  }

  lemma DecStart(n: int)
    ensures Dec(n) != "" && !IsSpace(Dec(n)[0]) && '[' !in Dec(n)
  {
  }

  /** The pieces of a channel's text. */
  lemma ClosedPieces(s: string, p: nat, st: Stat, d: char)
    requires At(s, p, ClosedText(st, d))
    ensures
      var q := p + 1 + |st.amp|;
      var r := q + 4 + |Dec(st.loc)|;
      && At(s, p + 1, st.amp) && At(s, q + 4, Dec(st.loc)) && r == p + |ClosedText(st, d)| - 1 < |s|
      && s[p] == ' ' && s[q] == ' ' && s[q + 1] == 'a' && s[q + 2] == 't' && s[q + 3] == ' ' && s[r] == d
  {
    hide *;
    ClosedTextIs(st, d);
    var amp, loc := st.amp, Dec(st.loc);
    var q := p + 1 + |amp|;
    FiveParts(s, p, " ", amp, " at ", loc, [d]);
    AtWord(s, q);
    AtIndex(s, p, " ", 0);
    AtIndex(s, q + 4 + |loc|, [d], 0);
  }

  lemma ClosedTextIs(st: Stat, d: char)
    ensures ClosedText(st, d) == " " + (st.amp + (" at " + (Dec(st.loc) + [d])))
  {
    hide Dec;
  }

  lemma FiveParts(s: string, p: nat, t: string, u: string, v: string, w: string, x: string)
    requires At(s, p, t + (u + (v + (w + x))))
    ensures At(s, p, t) && At(s, p + |t|, u) && At(s, p + |t| + |u|, v)
    ensures At(s, p + |t| + |u| + |v|, w) && At(s, p + |t| + |u| + |v| + |w|, x)
  {
    hide *;
    ThreeParts(s, p, t, u, v + (w + x));
    ThreeParts(s, p + |t| + |u|, v, w, x);
  }

  lemma AtWord(s: string, q: nat)
    requires At(s, q, " at ")
    ensures q + 4 <= |s| && s[q] == ' ' && s[q + 1] == 'a' && s[q + 2] == 't' && s[q + 3] == ' '
  {
    AtIndex(s, q, " at ", 0);
    AtIndex(s, q, " at ", 1);
    AtIndex(s, q, " at ", 2);
    AtIndex(s, q, " at ", 3);
  }

  /** A space and what strtod and strtol skip of it. */
  lemma OneSpace(s: string, p: nat)
    requires p + 1 < |s| && s[p] == ' ' && !IsSpace(s[p + 1])
    ensures SkipSpaces(s, p) == p + 1
  {
  }

  lemma StrToDIn(s: string, p: nat, t: string)
    requires IsNumeral(t) && p < |s| && s[p] == ' ' && At(s, p + 1, t)
    requires p + 1 + |t| < |s| && s[p + 1 + |t|] == ' '
    ensures StrToD(s, p) == Scan(t, p + 1 + |t|)
  {
    AtIndex(s, p + 1, t, 0);
    OneSpace(s, p);
    NumeralEndIn(s, p + 1, t);
  }

  /** The next 'a' after a numeral is that of "at". */
  lemma FindsAt(s: string, p: nat, t: string)
    requires IsNumeral(t) && At(s, p + 1, t) && p + 2 + |t| < |s|
    requires s[p] == ' ' && s[p + 1 + |t|] == ' ' && s[p + 2 + |t|] == 'a'
    ensures StrChr(s, p, 'a') == p + 2 + |t|
  {
    hide NumeralEnd, IsDigit;
    forall i | p <= i < p + 2 + |t| ensures s[i] != 'a' {
      if p < i < p + 1 + |t| {
        AtIndex(s, p + 1, t, i - p - 1);
        NumeralHasNo(t, i - p - 1);
      }
    }
  }

  lemma NumeralHasNo(t: string, i: nat)
    requires IsNumeral(t) && i < |t|
    ensures t[i] != 'a' && t[i] != '[' && !IsSpace(t[i])
  {
    assert NumeralChar(t[i]);
  }

  lemma ReadAmpIn(s: string, p: nat, st: Stat, d: char)
    requires IsNumeral(st.amp) && At(s, p, ClosedText(st, d))
    ensures
      var q := p + 1 + |st.amp|;
      StrToD(s, p) == Scan(st.amp, q) && StrChr(s, p, 'a') == q + 1 && q + 2 < |s| && s[q + 2] == 't'
  {
    hide *;
    ClosedPieces(s, p, st, d);
    StrToDIn(s, p, st.amp);
    FindsAt(s, p, st.amp);
  }

  lemma ReadLocIn(s: string, p: nat, st: Stat, d: char)
    requires At(s, p, ClosedText(st, d)) && !IsDigit(d)
    ensures
      var q := p + 4 + |st.amp|;
      var pos := p + |ClosedText(st, d)| - 1;
      q <= |s| && pos < |s| && s[pos] == d && StrToL(s, q) == Scan(st.loc, pos)
  {
    ClosedPieces(s, p, st, d);
    hide ClosedText, StrToL, At, Dec, IsSpace, IsDigit, SkipSpaces;
    var q := p + 4 + |st.amp|;
    DecStart(st.loc);
    AtIndex(s, q + 1, Dec(st.loc), 0);
    OneSpace(s, q);
    StrToLIn(s, q, q + 1, st.loc);
  }

  lemma ReadStatIn(s: string, p: nat, st: Stat, d: char, inRange: string -> bool)
    requires Printable(st, inRange) && At(s, p, ClosedText(st, d)) && !IsDigit(d)
    ensures
      var pos := p + |ClosedText(st, d)| - 1;
      pos < |s| && s[pos] == d && ReadStat(s, p, inRange) == Some((st, pos))
  {
    hide ClosedText, IsNumeral, StrToD, StrToL, StrChr, At, IsDigit;
    ReadAmpIn(s, p, st, d);
    ReadLocIn(s, p, st, d);
  }

  lemma {:induction false} ReadStatsIn(s: string, p: nat, stats: seq<Stat>, inRange: string -> bool)
    requires stats != [] && At(s, p, Body(stats))
    requires forall i :: 0 <= i < |stats| ==> Printable(stats[i], inRange)
    ensures
      var pos := p + |Body(stats)| - 1;
      pos < |s| && s[pos] == ';' && ReadStats(s, p, |stats|, inRange) == Some((stats, pos))
    decreases |stats|
  {
    hide At, Printable, ClosedText, ReadStat;
    var st := stats[0];
    if |stats| == 1 {
      ReadStatIn(s, p, st, ';', inRange);
      assert [st] == stats;
    } else {
      var t, rest := ClosedText(st, ','), stats[1..];
      AtParts(s, p, t, Body(rest));
      ReadStatIn(s, p, st, ',', inRange);
      ReadStatsIn(s, p + |t|, rest, inRange);
      assert [st] + rest == stats;
    }
  }

  lemma FindsEquals(s: string, pos: nat)
    requires pos < |s| && s[pos] == ';' && At(s, pos + 1, " time=")
    ensures StrChr(s, pos, '=') == pos + 6 < |s|
  {
    forall i | pos < i < pos + 6 ensures s[i] != '=' { AtIndex(s, pos + 1, " time=", i - pos - 1); }
    AtIndex(s, pos + 1, " time=", 5);
  }

  lemma ReadTimeIn(s: string, pos: nat, timetag: int)
    requires pos < |s| && s[pos] == ';' && At(s, pos + 1, TimeText(timetag))
    ensures StrChr(s, pos, '=') == pos + 6 < |s|
    ensures StrToL(s, pos + 7).Scan? && StrToL(s, pos + 7).value == timetag
  {
    var t := Dec(timetag);
    hide At, Dec, StrChr, StrToL, IsDigit, IsSpace;
    AtParts(s, pos + 1, " time=", t + "]");
    AtParts(s, pos + 7, t, "]");
    FindsEquals(s, pos);
    DecStart(timetag);
    AtIndex(s, pos + 7, t, 0);
    AtIndex(s, pos + 7 + |t|, "]", 0);
    BracketIsNoDigit();
    StrToLIn(s, pos + 7, pos + 7, timetag);
  }

  lemma BracketIsNoDigit()
    ensures !IsDigit(']')
  {
  }

  lemma TagColon(s: string, k: nat)
    requires At(s, k, PEAK_TAG)
    ensures StrChr(s, k, ':') == k + 7 < |s| && s[k] == '[' && TagAt(s, k)
  {
    forall i | k <= i < k + 7 ensures s[i] != ':' { AtIndex(s, k, PEAK_TAG, i - k); }
    AtIndex(s, k, PEAK_TAG, 0);
    AtIndex(s, k, PEAK_TAG, 7);
    assert s[k..][..8] == s[k..k + 8];
  }

  /** The peak text is parsed back wherever it stands. */
  lemma ReadTaggedIn(s: string, k: nat, stats: seq<Stat>, timetag: int, inRange: string -> bool)
    requires stats != [] && At(s, k, PeakText(stats, timetag)) && IsLong(timetag)
    requires forall i :: 0 <= i < |stats| ==> Printable(stats[i], inRange)
    ensures ReadTagged(s, k, |stats|, inRange) == Some((stats, timetag)) && TagAt(s, k) && k < |s| && s[k] == '['
  {
    hide At, Body, TimeText, PeakText, ReadStats, StrChr, StrToL, Printable, TagAt;
    PeakTextIs(stats, timetag);
    ThreeParts(s, k, PEAK_TAG, Body(stats), TimeText(timetag));
    assert |PEAK_TAG| == 8;
    TagColon(s, k);
    ReadStatsIn(s, k + 8, stats, inRange);
    ReadTimeIn(s, k + 7 + |Body(stats)|, timetag);
  }

  lemma {:induction false} BodyHasNoBracket(stats: seq<Stat>, inRange: string -> bool)
    requires stats != [] && forall i :: 0 <= i < |stats| ==> Printable(stats[i], inRange)
    ensures '[' !in Body(stats)
  {
    var st := stats[0];
    assert '[' !in st.amp by {
      forall i | 0 <= i < |st.amp| ensures st.amp[i] != '[' { NumeralHasNo(st.amp, i); }
    }
    DecStart(st.loc);
    hide Dec, IsNumeral;
    if |stats| > 1 {
      BodyHasNoBracket(stats[1..], inRange);
    }
  }

  lemma OneBracket(stats: seq<Stat>, timetag: int, inRange: string -> bool)
    requires stats != [] && forall i :: 0 <= i < |stats| ==> Printable(stats[i], inRange)
    ensures var t := PeakText(stats, timetag); t != "" && t[0] == '[' && '[' !in t[1..]
  {
    PeakTextIs(stats, timetag);
    BodyHasNoBracket(stats, inRange);
    TimeHasNoBracket(timetag);
    hide *;
    var rest := Body(stats) + TimeText(timetag);
    assert '[' !in rest;
    TagAndRest(rest);
  }

  lemma TimeHasNoBracket(timetag: int)
    ensures '[' !in TimeText(timetag)
  {
    DecStart(timetag);
    hide Dec;
  }

  lemma TagAndRest(rest: string)
    requires '[' !in rest
    ensures var t := PEAK_TAG + rest; t[0] == '[' && '[' !in t[1..]
  {
    var tag := PEAK_TAG[1..];
    assert tag == "maxamp:" && '[' !in tag;
    assert (PEAK_TAG + rest)[1..] == tag + rest;
  }

  /** A search backwards finds a bracket that no other follows. */
  lemma FindsLast(before: string, t: string)
    requires t != "" && t[0] == '[' && '[' !in t[1..]
    ensures PastLast(before + t, '[') == |before| + 1
  {
    hide PastLast;
    var s, k := before + t, |before|;
    forall i | k < i < |s| ensures s[i] != '[' {
      assert s[i] == t[1..][i - k - 1] && t[1..][i - k - 1] in t[1..];
    }
    assert s[k] == '[';
    var q := PastLast(s, '[');
  }

  /** The last bracket of a printed comment is the tag's, whatever the comment before it holds. */
  lemma TagIsLast(before: string, stats: seq<Stat>, timetag: int, inRange: string -> bool)
    requires stats != [] && IsLong(timetag)
    requires forall i :: 0 <= i < |stats| ==> Printable(stats[i], inRange)
    ensures
      var s := before + PeakText(stats, timetag);
      !Stuck(s) && TagPlace(s) == Some(|before|) && ReadTagged(s, |before|, |stats|, inRange) == Some((stats, timetag))
  {
    var t := PeakText(stats, timetag);
    assert At(before + t, |before|, t);
    OneBracket(stats, timetag, inRange);
    hide PeakText, ReadTagged, Printable, At, TagAt;
    ReadTaggedIn(before + t, |before|, stats, timetag, inRange);
    FindsLast(before, t);
  }

  /** Of a printed comment everything before the peak text is kept, and the newline goes unless it
      is the last character that fits. */
  lemma ChoppedIs(comment: string, t: string, len: nat)
    requires t != "" && |comment| < MAX_COMMENT_CHARS && |RawComment(comment, t)| <= len
    ensures
      var raw := RawComment(comment, t);
      Chopped(raw, |raw| - |t|, Min(len, MAX_COMMENT_CHARS - 1)) == comment <==> |comment| != 510
  {
    var raw := RawComment(comment, t);
    if comment != "" {
      assert raw[|comment|] == '\n' && raw[..|comment|] == comment;
      assert |comment| == 510 ==> raw[..511] != comment;
    }
  }

  /** Main result: what is printed is read back, comment, peaks, locations and time, from any
      field that holds it; except that a comment of 510 characters keeps the newline put after it,
      one that starts with the mark of an empty comment is not read at all, and with an empty one
      a time whose last byte is a newline loses that byte. */
  lemma ReadsBackExactlyWhen(comment: string, stats: seq<Stat>, timetag: int, len: nat, order: ByteOrder,
                             inRange: string -> bool)
    requires stats != [] && IsLong(timetag) && |comment| < MAX_COMMENT_CHARS
    requires forall i :: 0 <= i < |stats| ==> Printable(stats[i], inRange)
    requires |RawComment(comment, PeakText(stats, timetag))| <= len
    ensures
      var raw := RawComment(comment, PeakText(stats, timetag));
      var r := ReadComment(raw, len, |stats|, order, inRange);
      && !Stuck(raw)
      && ((r.offset != -1 && r.comment == comment && r.stats == stats && r.timetag == timetag) <==>
           && |comment| != 510 && !Has(comment, 0, COMMENT_START_CHAR)
           && (comment == "" ==> LastStoredByte(timetag, order) != 10))
  {
    ReadsBackAs(comment, stats, timetag, len, order, inRange);
    hide PeakText, ReadTagged, TagPlace, Stuck, Printable, Chopped, ReadComment, RawComment, LastStoredByte;
  }

  /** What is read of a printed comment in every case. */
  lemma ReadsBackAs(comment: string, stats: seq<Stat>, timetag: int, len: nat, order: ByteOrder,
                    inRange: string -> bool)
    requires stats != [] && IsLong(timetag) && |comment| < MAX_COMMENT_CHARS
    requires forall i :: 0 <= i < |stats| ==> Printable(stats[i], inRange)
    requires |RawComment(comment, PeakText(stats, timetag))| <= len
    ensures
      var raw := RawComment(comment, PeakText(stats, timetag));
      var r := ReadComment(raw, len, |stats|, order, inRange);
      && !Stuck(raw)
      && if Has(comment, 0, COMMENT_START_CHAR) then r == Reading(-1, "", [], 0)
         else
           var offset := if comment == "" then 0 else |comment| + 1;
           && r.offset == offset && (r.comment == comment <==> |comment| != 510)
           && r.stats == stats && r.timetag == TimeLeft(timetag, offset, order)
  {
    hide *;
    var t := PeakText(stats, timetag);
    OneBracket(stats, timetag, inRange);
    var before := if comment == "" then "" else comment + "\n";
    RawParts(comment, t, before);
    TagIsLast(before, stats, timetag, inRange);
    ChoppedIs(comment, t, len);
    if Has(comment, 0, COMMENT_START_CHAR) {
      ReadMarked(before + t, len, |stats|, order, inRange);
    } else {
      ReadFound(before + t, len, |stats|, order, inRange, |before|, stats, timetag);
    }
  }

  lemma RawParts(comment: string, t: string, before: string)
    requires before == if comment == "" then "" else comment + "\n"
    requires t != "" && t[0] == '['
    ensures RawComment(comment, t) == before + t
    ensures Has(before + t, 0, COMMENT_START_CHAR) == Has(comment, 0, COMMENT_START_CHAR)
  {
  }

  lemma ReadMarked(buf: string, len: nat, nchans: nat, order: ByteOrder, inRange: string -> bool)
    requires |buf| <= len && Has(buf, 0, COMMENT_START_CHAR)
    ensures ReadComment(buf, len, nchans, order, inRange) == Reading(-1, "", [], 0)
  {
  }

  lemma ReadFound(buf: string, len: nat, nchans: nat, order: ByteOrder, inRange: string -> bool,
                  k: nat, stats: seq<Stat>, timetag: int)
    requires |buf| <= len && !Has(buf, 0, COMMENT_START_CHAR)
    requires TagPlace(buf) == Some(k) && ReadTagged(buf, k, nchans, inRange) == Some((stats, timetag))
    ensures ReadComment(buf, len, nchans, order, inRange)
         == Reading(k, Chopped(buf, k, Min(len, MAX_COMMENT_CHARS - 1)), stats, TimeLeft(timetag, k, order))
  {
    hide TagPlace, ReadTagged, Chopped, TimeLeft, Has;
  }

  /** Statistics without a comment whose time is lost: there is one in either byte order. */
  lemma TimesLost(stats: seq<Stat>, len: nat, order: ByteOrder, inRange: string -> bool)
    requires stats != [] && forall i :: 0 <= i < |stats| ==> Printable(stats[i], inRange)
    requires |RawComment("", PeakText(stats, 10 * LastByteWeight(order)))| <= len
    ensures
      var timetag := 10 * LastByteWeight(order);
      var r := ReadComment(RawComment("", PeakText(stats, timetag)), len, |stats|, order, inRange);
      IsLong(timetag) && timetag != 0 && r == Reading(0, "", stats, 0)
  {
    hide *;
    TimeIsLost(order);
    EmptyHasNothing();
    ReadsBackAs("", stats, 10 * LastByteWeight(order), len, order, inRange);
  }

  lemma TimeIsLost(order: ByteOrder)
    ensures var timetag := 10 * LastByteWeight(order);
      IsLong(timetag) && timetag != 0 && TimeLeft(timetag, 0, order) == 0
  {
  }

  lemma EmptyHasNothing()
    ensures |""| < MAX_COMMENT_CHARS && !Has("", 0, COMMENT_START_CHAR)
  {
  }

  // ---- Comments without statistics.

  /** The last bracket of the text starts the tag, and statistics that parse follow it. */
  ghost predicate HasStatistics(buf: string, nchans: nat, inRange: string -> bool) {
    exists k: nat :: StatisticsAt(buf, k, nchans, inRange)
  }

  predicate StatisticsAt(buf: string, k: nat, nchans: nat, inRange: string -> bool) {
    k < |buf| && TagAt(buf, k) && '[' !in buf[k + 1..] && ReadTagged(buf, k, nchans, inRange).Some?
  }

  /** The tag is where the last bracket is, if it is anywhere there. */
  lemma TagPlaceIs(buf: string, k: nat)
    ensures TagPlace(buf) == Some(k) <==> k < |buf| && TagAt(buf, k) && '[' !in buf[k + 1..]
  {
    hide PastLast;
    var q := PastLast(buf, '[');
    if k < q - 1 {
      LaterBracket(buf, k, q - 1);
    } else if k < |buf| && TagAt(buf, k) {
      assert buf[k] == buf[k..][0] == PEAK_TAG[0];
      assert forall i :: 0 <= i < |buf| - q ==> buf[q..][i] == buf[q + i];
    }
  }

  lemma LaterBracket(buf: string, k: nat, m: nat)
    requires k < m < |buf| && buf[m] == '['
    ensures '[' in buf[k + 1..]
  {
    assert buf[k + 1..][m - k - 1] == '[';
  }

  /** Main result on other comments: a text that does not start with the mark of an empty comment
      is read as a comment without statistics exactly when none that parse follow its last
      bracket, as when the tag is nowhere; the comment is then the text, cut to 511 characters. */
  lemma PlainComment(buf: string, len: nat, nchans: nat, order: ByteOrder, inRange: string -> bool)
    requires |buf| <= len && !Has(buf, 0, COMMENT_START_CHAR)
    ensures
      var r := ReadComment(buf, len, nchans, order, inRange);
      && (r.offset == -1 <==> !HasStatistics(buf, nchans, inRange))
      && (r.offset == -1 ==>
            && r.comment <= buf && |r.comment| == (if |buf| < 512 then |buf| else 511)
            && (r.comment == buf <==> |buf| < 512) && r.stats == [] && r.timetag == 0)
    ensures (forall k :: 0 <= k < |buf| ==> !TagAt(buf, k)) ==> !HasStatistics(buf, nchans, inRange)
  {
    hide TagAt, ReadTagged, TagPlace, Chopped, TimeLeft;
    var place := TagPlace(buf);
    if place.Some? {
      TagPlaceIs(buf, place.value);
      assert ReadTagged(buf, place.value, nchans, inRange).Some? ==>
          StatisticsAt(buf, place.value, nchans, inRange);
    }
    forall k: nat | StatisticsAt(buf, k, nchans, inRange) ensures place == Some(k) {
      TagPlaceIs(buf, k);
    }
  }

  /** A comment printed without statistics is read back exactly when it neither starts with the
      mark nor ends in statistics. */
  lemma PlainReadsBackExactlyWhen(comment: string, len: nat, nchans: nat, order: ByteOrder, inRange: string -> bool)
    requires |comment| < MAX_COMMENT_CHARS && |comment| <= len
    ensures RawComment(comment, "") == comment
    ensures ReadComment(RawComment(comment, ""), len, nchans, order, inRange) == Reading(-1, comment, [], 0) <==>
      !Has(comment, 0, COMMENT_START_CHAR) && !HasStatistics(comment, nchans, inRange)
  {
    hide HasStatistics, TagPlace, ReadTagged, Chopped, TimeLeft;
    assert comment + "" + "" == comment;
    if !Has(comment, 0, COMMENT_START_CHAR) {
      PlainComment(comment, len, nchans, order, inRange);
    }
  }

  /** What is read lies in the ranges of the C library's conversions. */
  lemma ReadingInRange(buf: string, len: nat, nchans: nat, order: ByteOrder, inRange: string -> bool)
    requires |buf| <= len
    ensures
      var r := ReadComment(buf, len, nchans, order, inRange);
      && |r.comment| < MAX_COMMENT_CHARS && IsLong(r.timetag)
      && forall i :: 0 <= i < |r.stats| ==> inRange(r.stats[i].amp) && IsLong(r.stats[i].loc)
  {
    var place := TagPlace(buf);
    if place.Some? && ReadTagged(buf, place.value, nchans, inRange).Some? {
      var k := place.value;
      ReadTaggedInRange(buf, k, nchans, inRange);
      TimeLeftInRange(ReadTagged(buf, k, nchans, inRange).value.1, k, order);
    }
    hide ReadTagged, TagPlace, TimeLeft;
  }

  lemma ReadTaggedInRange(s: string, p: nat, nchans: nat, inRange: string -> bool)
    requires p <= |s| && ReadTagged(s, p, nchans, inRange).Some?
    ensures
      var (stats, timetag) := ReadTagged(s, p, nchans, inRange).value;
      IsLong(timetag) && forall i :: 0 <= i < |stats| ==> inRange(stats[i].amp) && IsLong(stats[i].loc)
  {
    hide ReadStats, StrToL;
    ReadStatsInRange(s, StrChr(s, p, ':') + 1, nchans, inRange);
  }

  lemma {:induction false} ReadStatsInRange(s: string, p: nat, left: nat, inRange: string -> bool)
    requires p <= |s| && ReadStats(s, p, left, inRange).Some?
    ensures
      var stats := ReadStats(s, p, left, inRange).value.0;
      stats != [] && forall i :: 0 <= i < |stats| ==> inRange(stats[i].amp) && IsLong(stats[i].loc)
    decreases left
  {
    hide StrToD, StrToL, StrChr;
    var (st, pos) := ReadStat(s, p, inRange).value;
    if !Has(s, pos, ';') {
      ReadStatsInRange(s, pos + 1, left - 1, inRange);
    }
  }

  lemma TimeLeftInRange(timetag: int, offset: nat, order: ByteOrder)
    requires IsLong(timetag)
    ensures IsLong(TimeLeft(timetag, offset, order))
  {
  }

  /** A printed example. */
  lemma PrintedExample()
    ensures
      var peaks := PeakText([Stat("0.5", 3), Stat("1", 12)], 7);
      RawComment("a", peaks) == "a\n" + ("[maxamp:" + ((" 0.5 at 3," + " 1 at 12;") + " time=7]"))
  {
    hide *;
    var st, st' := Stat("0.5", 3), Stat("1", 12);
    PeakTextIs([st, st'], 7);
    BodyOfTwo(st, st');
    ExampleStats();
    ExampleParts();
  }

  lemma ExampleStats()
    ensures ClosedText(Stat("0.5", 3), ',') == " 0.5 at 3," && ClosedText(Stat("1", 12), ';') == " 1 at 12;"
  {
    assert DecNat(1) == "1";
    assert Dec(3) == "3" && Dec(12) == "12";
  }

  lemma BodyOfTwo(st: Stat, st': Stat)
    ensures Body([st, st']) == ClosedText(st, ',') + ClosedText(st', ';')
  {
    hide ClosedText;
    assert [st, st'][1..] == [st'];
  }

  lemma ExampleParts()
    ensures PEAK_TAG == "[maxamp:" && TimeText(7) == " time=7]"
    ensures forall t: string :: t != "" ==> RawComment("a", t) == "a\n" + t
  {
  }

  // ---- The byte before the comment.

  predicate AreBytes(bs: seq<int>) {
    forall i :: 0 <= i < |bs| ==> 0 <= bs[i] < 256
  }

  /** The number of bytes, the most significant first. */
  function Number(bs: seq<int>): int {
    if bs == [] then 0 else Number(bs[..|bs| - 1]) * 256 + bs[|bs| - 1]
  }

  function Weight(k: nat): (w: nat)
    ensures w > 0
  {
    if k == 0 then 1 else 256 * Weight(k - 1)
  }

  lemma {:induction false} NumberFromFront(d: int, bs: seq<int>)
    requires AreBytes(bs)
    ensures Number([d] + bs) == d * Weight(|bs|) + Number(bs) && 0 <= Number(bs) < Weight(|bs|)
  {
    if bs == [] {
      assert [d] + bs == [d] && Number([d][..0]) == 0;
    } else {
      var n := |bs| - 1;
      NumberFromFront(d, bs[..n]);
      assert ([d] + bs)[..|bs|] == [d] + bs[..n];
      assert d * Weight(n) * 256 == d * Weight(n + 1);
    }
  }

  function Mirrored(bs: seq<int>): (m: seq<int>)
    ensures |m| == |bs|
  {
    seq(|bs|, i requires 0 <= i < |bs| => bs[|bs| - 1 - i])
  }

  /** The long that eight bytes in memory stand for. */
  function LongOf(bs: seq<int>, order: ByteOrder): int {
    SignedLong(Number(if order == BigEndian then bs else Mirrored(bs)))
  }

  function SignedLong(v: int): int { if v > LONG_MAX then v - 0x1_0000_0000_0000_0000 else v }

  /** What is left of a time is what its bytes stand for once a newline in the last one, which lies
      right before the comment, has become a terminator. */
  lemma NewlineByteCleared(bs: seq<int>, order: ByteOrder)
    requires |bs| == 8 && AreBytes(bs)
    ensures TimeLeft(LongOf(bs, order), 0, order) == LongOf(if bs[7] == 10 then bs[7 := 0] else bs, order)
  {
    hide *;
    LongOfIs(bs, order);
    LongOfIs(bs[7 := 0], order);
    if order == BigEndian {
      LastIsUnit(bs);
      UnitCleared(Number(bs), Number(bs[..7]), bs[7]);
    } else {
      LastIsTop(bs);
      TopCleared(Number(Mirrored(bs)), Number(Mirrored(bs)[1..]), bs[7]);
    }
  }

  lemma LongOfIs(bs: seq<int>, order: ByteOrder)
    ensures LongOf(bs, order) == SignedLong(Number(if order == BigEndian then bs else Mirrored(bs)))
  {
    hide Number;
  }

  lemma LastIsUnit(bs: seq<int>)
    requires |bs| == 8 && AreBytes(bs)
    ensures Number(bs) == Number(bs[..7]) * 256 + bs[7] && Number(bs[7 := 0]) == Number(bs[..7]) * 256
    ensures 0 <= bs[7] < 256 && 0 <= Number(bs[..7]) < 0x100_0000_0000_0000
  {
    assert bs[7 := 0][..7] == bs[..7];
    NumberFromFront(0, bs[..7]);
    SevenBytes();
    hide Weight;
  }

  lemma LastIsTop(bs: seq<int>)
    requires |bs| == 8 && AreBytes(bs)
    ensures
      var rest := Mirrored(bs)[1..];
      && Number(Mirrored(bs)) == bs[7] * 0x100_0000_0000_0000 + Number(rest)
      && Number(Mirrored(bs[7 := 0])) == Number(rest)
      && 0 <= bs[7] < 256 && 0 <= Number(rest) < 0x100_0000_0000_0000
  {
    var m := Mirrored(bs);
    assert m == [bs[7]] + m[1..] && Mirrored(bs[7 := 0]) == [0] + m[1..];
    assert AreBytes(m[1..]);
    hide Number, Weight, Mirrored;
    NumberFromFront(bs[7], m[1..]);
    NumberFromFront(0, m[1..]);
    SevenBytes();
  }

  lemma SevenBytes()
    ensures Weight(7) == 0x100_0000_0000_0000
  {
    assert Weight(2) == 0x1_0000 && Weight(4) == 0x1_0000_0000;
  }

  lemma UnitCleared(v: int, rest: int, d: int)
    requires v == rest * 256 + d && 0 <= d < 256 && 0 <= rest < 0x100_0000_0000_0000
    ensures TimeLeft(SignedLong(v), 0, BigEndian) == SignedLong(if d == 10 then rest * 256 else v)
  {
  }

  lemma TopCleared(v: int, rest: int, d: int)
    requires v == d * 0x100_0000_0000_0000 + rest && 0 <= d < 256 && 0 <= rest < 0x100_0000_0000_0000
    ensures TimeLeft(SignedLong(v), 0, LittleEndian) == SignedLong(if d == 10 then rest else v)
  {
    var w := if v > LONG_MAX then d - 256 else d;
    assert SignedLong(v) == w * 0x100_0000_0000_0000 + rest;
  }
}
