/**
 * The part of `std::istringstream` the attribute parser relies on: word
 * extraction (`>> std::string`), decimal extraction (`>> int`), and the
 * eof/fail state. Once the stream is not good, every further extraction
 * fails and leaves its target unchanged.
 */
module LineStream {
  import opened Decimal

  /** `find(p) != npos`: `p` occurs somewhere in `s`. */
  function Contains(s: string, p: string): bool
    decreases |s|
  {
    if |s| < |p| then false else s[..|p|] == p || Contains(s[1..], p)
  }

  lemma {:induction false} ContainsAt(s: string, p: string, i: nat)
    requires i + |p| <= |s| && s[i..i + |p|] == p
    ensures Contains(s, p)
    decreases i
  {
    if i > 0 {
      assert s[1..][i - 1..i - 1 + |p|] == p;
      ContainsAt(s[1..], p, i - 1);
    }
  }

  /** The converse of `ContainsAt`: text that is found occurs at some index. */
  lemma {:induction false} ContainsFound(s: string, p: string) returns (i: nat)
    requires Contains(s, p)
    ensures i + |p| <= |s| && s[i..i + |p|] == p
    decreases |s|
  {
    if s[..|p|] == p {
      i := 0;
    } else {
      var j := ContainsFound(s[1..], p);
      i := j + 1;
      assert s[i..i + |p|] == s[1..][j..j + |p|];
    }
  }

  lemma {:induction false} ContainsLength(s: string, p: string)
    requires Contains(s, p)
    ensures |p| <= |s|
  {
  }

  datatype Stream = Stream(text: string, pos: nat, eof: bool, fail: bool) {
    predicate Valid() {
      pos <= |text|
    }

    /** `good()`: neither end of input nor a failed extraction so far. */
    predicate Good() {
      !eof && !fail
    }
  }

  /** A fresh `istringstream` over one line. */
  function Open(line: string): (st: Stream)
    ensures st.Valid() && st.Good() && st.text == line
  {
    Stream(line, 0, false, false)
  }

  /** The first index at or after `i` that is not white space. */
  function SkipSpace(text: string, i: nat): (j: nat)
    requires i <= |text|
    ensures i <= j <= |text|
    ensures forall k :: i <= k < j ==> IsSpace(text[k])
    ensures j < |text| ==> !IsSpace(text[j])
    decreases |text| - i
  {
    if i < |text| && IsSpace(text[i]) then SkipSpace(text, i + 1) else i
  }

  /** The end of the word that starts at `j`: the next white space or the end of the text. */
  function WordEnd(text: string, j: nat): (k: nat)
    requires j <= |text|
    ensures j <= k <= |text|
    ensures forall m :: j <= m < k ==> !IsSpace(text[m])
    ensures k < |text| ==> IsSpace(text[k])
    decreases |text| - j
  {
    if j < |text| && !IsSpace(text[j]) then WordEnd(text, j + 1) else j
  }

  /**
   * `stream >> word`: skip white space, then take the longest run of
   * non-space characters. Reaching the end while skipping fails and keeps
   * `prev`; reaching the end while reading sets eof but succeeds.
   */
  function ReadWord(st: Stream, prev: string): (r: (Stream, string))
    requires st.Valid()
    ensures r.0.Valid() && r.0.text == st.text
    ensures r.0.fail <==> !st.Good() || SkipSpace(st.text, st.pos) == |st.text|
    ensures r.0.fail ==> r.1 == prev
    ensures !r.0.fail ==>
      && st.pos <= SkipSpace(st.text, st.pos) < r.0.pos
      && r.1 == st.text[SkipSpace(st.text, st.pos)..r.0.pos]
      && |r.1| > 0
      && (forall m :: 0 <= m < |r.1| ==> !IsSpace(r.1[m]))
      && (r.0.pos < |st.text| ==> IsSpace(st.text[r.0.pos]))
  {
    if !st.Good() then (st.(fail := true), prev)
    else
      var j := SkipSpace(st.text, st.pos);
      if j == |st.text| then (Stream(st.text, j, true, true), prev)
      else
        var k := WordEnd(st.text, j);
        (Stream(st.text, k, k == |st.text|, false), st.text[j..k])
  }

  /** The value in `attribute.location`: unset until an extraction stores a number. */
  datatype Location = Unset | At(n: int)

  /**
   * `stream >> location` for a signed decimal: skip white space, take one
   * optional sign, then the longest run of digits. Without digits the
   * extraction fails and stores 0; if the stream was already not good,
   * nothing is stored. Overflow is not modelled.
   */
  function ReadInt(st: Stream, prev: Location): (r: (Stream, Location))
    requires st.Valid()
    ensures r.0.Valid() && r.0.text == st.text && r.0.pos >= st.pos
    ensures !st.Good() ==> r.0.fail && r.1 == prev
    ensures !r.0.fail ==> r.1.At?
  {
    if !st.Good() then (st.(fail := true), prev)
    else
      var j := SkipSpace(st.text, st.pos);
      if j == |st.text| then (Stream(st.text, j, true, true), prev)
      else ReadSigned(st.text, j)
  }

  /** The number starting at the non-space character `text[j]`: one optional sign, then digits. */
  function ReadSigned(text: string, j: nat): (r: (Stream, Location))
    requires j < |text|
    ensures r.0.Valid() && r.0.text == text && r.0.pos >= j
    ensures !r.0.fail ==> r.1.At?
  {
    var negative := text[j] == '-';
    ReadDigits(text, if text[j] == '+' || negative then j + 1 else j, negative)
  }

  /** The longest run of digits at `k`; without digits the extraction fails and stores 0. */
  function ReadDigits(text: string, k: nat, negative: bool): (r: (Stream, Location))
    requires k <= |text|
    ensures r.0.Valid() && r.0.text == text && r.0.pos >= k
    ensures !r.0.fail ==> r.1.At?
  {
    var run := DigitRun(text[k..]);
    if run == 0 then (Stream(text, k, k == |text|, true), At(0))
    else
      var v: int := Value(text[k..][..run]);
      (Stream(text, k + run, k + run == |text|, false), At(if negative then -v else v))
  }

  /**
   * `while (stream >> token && token != "=") {}`: read words until one is
   * "=" or an extraction fails; the last word read stays in the token.
   */
  function SkipPastEquals(st: Stream, token: string): (r: (Stream, string))
    requires st.Valid()
    ensures r.0.Valid() && r.0.text == st.text
    ensures r.0.fail || r.1 == "="
    ensures !st.Good() ==> r.0.fail && r.1 == token
    decreases |st.text| - st.pos
  {
    var (s1, t1) := ReadWord(st, token);
    if s1.fail || t1 == "=" then (s1, t1) else SkipPastEquals(s1, t1)
  }

  /** Only white space. */
  predicate AllSpace(s: string) {
    forall i :: 0 <= i < |s| ==> IsSpace(s[i])
  }

  /** A word as extraction delivers it: non-empty, no white space. */
  predicate IsWord(w: string) {
    |w| > 0 && forall i :: 0 <= i < |w| ==> !IsSpace(w[i])
  }

  lemma SkipSpaceAt(text: string, i: nat, j: nat)
    requires i <= j <= |text|
    requires forall m :: i <= m < j ==> IsSpace(text[m])
    requires j < |text| ==> !IsSpace(text[j])
    ensures SkipSpace(text, i) == j
  {
    var k := SkipSpace(text, i);
    if k < j {
      assert false;
    }
    if k > j {
      assert false;
    }
  }

  lemma WordEndAt(text: string, j: nat, k: nat)
    requires j <= k <= |text|
    requires forall m :: j <= m < k ==> !IsSpace(text[m])
    requires k < |text| ==> IsSpace(text[k])
    ensures WordEnd(text, j) == k
  {
    var e := WordEnd(text, j);
    if e < k {
      assert false;
    }
    if e > k {
      assert false;
    }
  }

  /**
   * White space at the read position is skipped up to the first character
   * of `rest`; the text from there on is `rest`.
   */
  lemma SkipGap(text: string, i: nat, gap: string, rest: string)
    requires i <= |text| && text[i..] == gap + rest
    requires AllSpace(gap) && rest != [] && !IsSpace(rest[0])
    ensures SkipSpace(text, i) == i + |gap|
    ensures text[i + |gap|..] == rest
  {
    var j := i + |gap|;
    forall m | i <= m < j
      ensures IsSpace(text[m])
    {
      assert text[m] == text[i..][m - i] == gap[m - i];
    }
    assert text[j] == text[i..][|gap|] == rest[0];
    SkipSpaceAt(text, i, j);
  }

  /**
   * Word extraction, described by what remains to be read: white space, the
   * word, and then white space or the end.
   */
  lemma ReadWordOver(st: Stream, prev: string, gap: string, w: string, after: string)
    requires st.Good() && st.Valid() && st.text[st.pos..] == gap + (w + after)
    requires AllSpace(gap) && IsWord(w) && (after == [] || IsSpace(after[0]))
    ensures ReadWord(st, prev).0 == Stream(st.text, st.pos + |gap| + |w|, after == [], false)
    ensures ReadWord(st, prev).1 == w
  {
    var j, k := st.pos + |gap|, st.pos + |gap| + |w|;
    assert SkipSpace(st.text, st.pos) == j && WordEnd(st.text, j) == k && st.text[j..k] == w
      && (k == |st.text| <==> after == []) by {
      SkipGap(st.text, st.pos, gap, w + after);
      WordAt(st.text, j, w, after);
    }
    ReadWordFrom(st, prev, j, k);
  }

  /** Word extraction once the start and end of the word are known. */
  lemma ReadWordFrom(st: Stream, prev: string, j: nat, k: nat)
    requires st.Good() && st.Valid() && j < k <= |st.text|
    requires SkipSpace(st.text, st.pos) == j && WordEnd(st.text, j) == k
    ensures ReadWord(st, prev) == (Stream(st.text, k, k == |st.text|, false), st.text[j..k])
  {
  }

  /** The word at `j` is `w` when `w` is followed by white space or the end. */
  lemma WordAt(text: string, j: nat, w: string, after: string)
    requires j <= |text| && text[j..] == w + after
    requires IsWord(w) && (after == [] || IsSpace(after[0]))
    ensures WordEnd(text, j) == j + |w|
    ensures text[j..j + |w|] == w
  {
    var k := j + |w|;
    forall m | j <= m < k
      ensures !IsSpace(text[m])
    {
      assert text[m] == text[j..][m - j] == w[m - j];
    }
    if after != [] {
      assert text[k] == text[j..][|w|] == after[0];
    }
    WordEndAt(text, j, k);
    assert text[j..k] == text[j..][..|w|];
  }

  /** One word read in the middle of a line, and the text still unread after it. */
  lemma WordStep(text: string, pos: nat, prev: string, gap: string, w: string, after: string)
    requires pos <= |text| && text[pos..] == gap + (w + after)
    requires AllSpace(gap) && IsWord(w) && after != [] && IsSpace(after[0])
    ensures ReadWord(Stream(text, pos, false, false), prev) == (Stream(text, pos + |gap| + |w|, false, false), w)
    ensures text[pos + |gap| + |w|..] == after
  {
    ReadWordOver(Stream(text, pos, false, false), prev, gap, w, after);
    Remainder(text, pos, gap, w, after);
  }

  /** What is left once the gap and the item after it are consumed. */
  lemma Remainder(text: string, i: nat, gap: string, item: string, after: string)
    requires i <= |text| && text[i..] == gap + (item + after)
    ensures i + |gap| + |item| <= |text|
    ensures text[i + |gap| + |item|..] == after
  {
    assert text[i + |gap| + |item|..] == text[i..][|gap| + |item|..];
  }

  /**
   * Decimal extraction, described by what remains to be read: white space,
   * the digits, and then the end of the line or a character that is not a
   * digit. Eof is set exactly when the digits end the line.
   */
  lemma ReadIntDigits(st: Stream, prev: Location, gap: string, digits: string, after: string)
    requires st.Good() && st.Valid() && st.text[st.pos..] == gap + (digits + after)
    requires AllSpace(gap) && |digits| > 0 && AllDigits(digits)
    requires |after| == 0 || !IsDigit(after[0])
    ensures ReadInt(st, prev).0 == Stream(st.text, st.pos + |gap| + |digits|, |after| == 0, false)
    ensures ReadInt(st, prev).1 == At(Value(digits))
  {
    var j := st.pos + |gap|;
    assert IsDigit(digits[0]);
    assert SkipSpace(st.text, st.pos) == j && st.text[j..] == digits + after by {
      SkipGap(st.text, st.pos, gap, digits + after);
    }
    assert ReadInt(st, prev) == ReadDigits(st.text, j, false) by {
      ReadIntAt(st, prev, j);
      UnsignedAt(st.text, j);
    }
    DigitsTo(st.text, j, digits, after, false);
  }

  /**
   * The same with a sign `c` (`-` or `+`) in front of the digits: the value
   * is negated after `-`.
   */
  lemma ReadIntSigned(st: Stream, prev: Location, gap: string, c: char, digits: string, after: string)
    requires st.Good() && st.Valid() && st.text[st.pos..] == gap + ([c] + (digits + after))
    requires AllSpace(gap) && (c == '-' || c == '+') && |digits| > 0 && AllDigits(digits)
    requires |after| == 0 || !IsDigit(after[0])
    ensures ReadInt(st, prev).0 == Stream(st.text, st.pos + |gap| + 1 + |digits|, |after| == 0, false)
    ensures ReadInt(st, prev).1 == At(if c == '-' then -(Value(digits) as int) else Value(digits))
  {
    var j := st.pos + |gap|;
    assert SkipSpace(st.text, st.pos) == j && st.text[j..] == [c] + (digits + after) by {
      SkipGap(st.text, st.pos, gap, [c] + (digits + after));
    }
    ReadIntAt(st, prev, j);
    SignedDigits(st.text, j, c, digits, after);
  }

  /** The number at `j`: the sign `c`, then digits that end the line or are followed by a non-digit. */
  lemma SignedDigits(text: string, j: nat, c: char, digits: string, after: string)
    requires j < |text| && text[j..] == [c] + (digits + after) && (c == '-' || c == '+')
    requires |digits| > 0 && AllDigits(digits) && (|after| == 0 || !IsDigit(after[0]))
    ensures ReadSigned(text, j).0 == Stream(text, j + 1 + |digits|, |after| == 0, false)
    ensures ReadSigned(text, j).1 == At(if c == '-' then -(Value(digits) as int) else Value(digits))
  {
    SignAt(text, j, c, digits + after);
    DigitsTo(text, j + 1, digits, after, c == '-');
  }

  /**
   * Decimal extraction where the first character after the white space is
   * neither a digit nor a sign: the extraction fails, stores 0 and consumes
   * only the white space.
   */
  lemma ReadIntNoDigits(st: Stream, prev: Location, gap: string, after: string)
    requires st.Good() && st.Valid() && st.text[st.pos..] == gap + after
    requires AllSpace(gap) && |after| > 0 && !IsSpace(after[0]) && !IsDigit(after[0])
    requires after[0] != '-' && after[0] != '+'
    ensures ReadInt(st, prev).0 == Stream(st.text, st.pos + |gap|, false, true)
    ensures ReadInt(st, prev).1 == At(0)
  {
    var j := st.pos + |gap|;
    assert SkipSpace(st.text, st.pos) == j && st.text[j..] == after by {
      SkipGap(st.text, st.pos, gap, after);
    }
    assert ReadInt(st, prev) == ReadDigits(st.text, j, false) by {
      ReadIntAt(st, prev, j);
      assert st.text[j] == after[0];
    }
    assert DigitRun(st.text[j..]) == 0;
  }

  /**
   * Decimal extraction of a sign `c` with no digit after it: the extraction
   * fails and stores 0, having consumed the sign; eof is set if the sign
   * ends the line.
   */
  lemma ReadIntSignOnly(st: Stream, prev: Location, gap: string, c: char, after: string)
    requires st.Good() && st.Valid() && st.text[st.pos..] == gap + ([c] + after)
    requires AllSpace(gap) && (c == '-' || c == '+') && (|after| == 0 || !IsDigit(after[0]))
    ensures ReadInt(st, prev).0 == Stream(st.text, st.pos + |gap| + 1, |after| == 0, true)
    ensures ReadInt(st, prev).1 == At(0)
  {
    var j := st.pos + |gap|;
    assert SkipSpace(st.text, st.pos) == j && st.text[j..] == [c] + after by {
      SkipGap(st.text, st.pos, gap, [c] + after);
    }
    ReadIntAt(st, prev, j);
    SignAt(st.text, j, c, after);
    assert DigitRun(st.text[j + 1..]) == 0;
  }

  /** A sign at `j` is consumed and decides the sign of the value. */
  lemma SignAt(text: string, j: nat, c: char, rest: string)
    requires j < |text| && text[j..] == [c] + rest && (c == '-' || c == '+')
    ensures text[j + 1..] == rest
    ensures ReadSigned(text, j) == ReadDigits(text, j + 1, c == '-')
  {
    assert text[j] == text[j..][0];
    assert text[j + 1..] == text[j..][1..];
  }

  /** Decimal extraction with only white space left fails, sets eof and stores nothing. */
  lemma ReadIntBlank(st: Stream, prev: Location)
    requires st.Good() && st.Valid() && AllSpace(st.text[st.pos..])
    ensures ReadInt(st, prev).0 == Stream(st.text, |st.text|, true, true)
    ensures ReadInt(st, prev).1 == prev
  {
    forall m | st.pos <= m < |st.text|
      ensures IsSpace(st.text[m])
    {
      assert st.text[m] == st.text[st.pos..][m - st.pos];
    }
    SkipSpaceAt(st.text, st.pos, |st.text|);
  }

  lemma ReadIntAt(st: Stream, prev: Location, j: nat)
    requires st.Good() && st.Valid() && j < |st.text| && SkipSpace(st.text, st.pos) == j
    ensures ReadInt(st, prev) == ReadSigned(st.text, j)
  {
  }

  /** A number that opens with a digit has no sign. */
  lemma UnsignedAt(text: string, j: nat)
    requires j < |text| && IsDigit(text[j])
    ensures ReadSigned(text, j) == ReadDigits(text, j, false)
  {
  }

  /** Reading the digits at `k`, which end the line or are followed by a non-digit. */
  lemma DigitsTo(text: string, k: nat, digits: string, after: string, negative: bool)
    requires k <= |text| && text[k..] == digits + after
    requires |digits| > 0 && AllDigits(digits) && (|after| == 0 || !IsDigit(after[0]))
    ensures ReadDigits(text, k, negative).0 == Stream(text, k + |digits|, |after| == 0, false)
    ensures ReadDigits(text, k, negative).1 == At(if negative then -(Value(digits) as int) else Value(digits))
  {
    assert DigitRun(text[k..]) == |digits| && text[k..][..|digits|] == digits
      && (k + |digits| == |text| <==> |after| == 0) by {
      DigitsEnd(text, k, digits, after);
    }
    DigitsRead(text, k, digits, negative);
  }

  /** Where the run of digits at `k` ends. */
  lemma DigitsEnd(text: string, k: nat, digits: string, after: string)
    requires k <= |text| && text[k..] == digits + after
    requires AllDigits(digits) && (|after| == 0 || !IsDigit(after[0]))
    ensures DigitRun(text[k..]) == |digits| && text[k..][..|digits|] == digits
    ensures k + |digits| == |text| <==> |after| == 0
  {
    if |after| == 0 {
      assert text[k..] == digits;
      DigitRunOfDigits(digits);
    } else {
      DigitRunOver(digits, after);
    }
  }

  /** Reading the run of digits `digits` at `k`. */
  lemma DigitsRead(text: string, k: nat, digits: string, negative: bool)
    requires k + |digits| <= |text| && |digits| > 0
    requires DigitRun(text[k..]) == |digits| && text[k..][..|digits|] == digits
    ensures ReadDigits(text, k, negative).0 == Stream(text, k + |digits|, k + |digits| == |text|, false)
    ensures ReadDigits(text, k, negative).1 == At(if negative then -(Value(digits) as int) else Value(digits))
  {
  }

  /** The loop reads past a word other than `=` that is followed by more of the line. */
  lemma SkipPastWord(st: Stream, token: string, gap: string, w: string, after: string)
    requires st.Good() && st.Valid() && st.text[st.pos..] == gap + (w + after)
    requires AllSpace(gap) && IsWord(w) && w != "=" && after != [] && IsSpace(after[0])
    ensures st.text[st.pos + |gap| + |w|..] == after
    ensures SkipPastEquals(st, token) == SkipPastEquals(Stream(st.text, st.pos + |gap| + |w|, false, false), w)
  {
    WordStep(st.text, st.pos, token, gap, w, after);
  }

  /** The loop reads the last word of the line, other than `=`, and then fails holding it. */
  lemma SkipPastLast(st: Stream, token: string, gap: string, w: string)
    requires st.Good() && st.Valid() && st.text[st.pos..] == gap + (w + [])
    requires AllSpace(gap) && IsWord(w) && w != "="
    ensures SkipPastEquals(st, token).0 == Stream(st.text, |st.text|, true, true)
    ensures SkipPastEquals(st, token).1 == w
  {
    ReadWordOver(st, token, gap, w, []);
  }

  /**
   * `text[i..k]` is a word still to be read from `from` on: a run of
   * non-space characters that starts at `from` or after white space, and ends
   * at white space or at the end of the line.
   */
  predicate WordSpan(text: string, from: nat, i: nat, k: nat) {
    && from <= i < k <= |text|
    && (i == from || IsSpace(text[i - 1]))
    && (k == |text| || IsSpace(text[k]))
    && forall m :: i <= m < k ==> !IsSpace(text[m])
  }

  /**
   * The loop stops on the first word `=` still to be read, just after it; the
   * stream stays usable unless that word ends the line.
   */
  lemma {:induction false} SkipPastEqualsFinds(st: Stream, token: string, i: nat)
    requires st.Good() && st.Valid()
    requires WordSpan(st.text, st.pos, i, i + 1) && st.text[i] == '='
    requires forall a: nat, b: nat :: WordSpan(st.text, st.pos, a, b) && a < i ==> st.text[a..b] != "="
    ensures SkipPastEquals(st, token) == (Stream(st.text, i + 1, i + 1 == |st.text|, false), "=")
    decreases |st.text| - st.pos
  {
    assert !AllSpace(st.text[st.pos..]) by {
      assert st.text[st.pos..][i - st.pos] == st.text[i];
    }
    FirstSpan(st, token);
    var (s1, w) := ReadWord(st, token);
    var j := SkipSpace(st.text, st.pos);
    if j == i {
      assert s1.pos == i + 1 by {
        if s1.pos > i + 1 {
          assert false;
        }
      }
      assert w == [st.text[i]];
    } else {
      assert w != "=" by {
        assert WordSpan(st.text, st.pos, j, s1.pos);
      }
      assert s1.pos < i by {
        assert IsSpace(st.text[i - 1]);
      }
      forall a: nat, b: nat | WordSpan(st.text, s1.pos, a, b) && a < i
        ensures st.text[a..b] != "="
      {
        assert WordSpan(st.text, st.pos, a, b);
      }
      SkipPastEqualsFinds(s1, w, i);
    }
  }

  /**
   * Without a word `=` still to be read, the loop ends in a failed
   * extraction. The token then holds the last word of the line, or is
   * unchanged if only white space was left.
   */
  lemma {:induction false} SkipPastEqualsMisses(st: Stream, token: string)
    requires st.Good() && st.Valid()
    requires forall a: nat, b: nat :: WordSpan(st.text, st.pos, a, b) ==> st.text[a..b] != "="
    ensures SkipPastEquals(st, token).0.fail
    ensures AllSpace(st.text[st.pos..]) ==> SkipPastEquals(st, token).1 == token
    ensures !AllSpace(st.text[st.pos..]) ==> exists a: nat, b: nat ::
      && WordSpan(st.text, st.pos, a, b)
      && AllSpace(st.text[b..])
      && SkipPastEquals(st, token).1 == st.text[a..b]
    decreases |st.text| - st.pos
  {
    if AllSpace(st.text[st.pos..]) {
      BlankRest(st.text, st.pos);
    } else {
      FirstSpan(st, token);
      var (s1, w) := ReadWord(st, token);
      var j := SkipSpace(st.text, st.pos);
      assert WordSpan(st.text, st.pos, j, s1.pos);
      if s1.pos == |st.text| {
        assert AllSpace(st.text[s1.pos..]);
      } else {
        forall a: nat, b: nat | WordSpan(st.text, s1.pos, a, b)
          ensures st.text[a..b] != "="
        {
          assert WordSpan(st.text, st.pos, a, b);
        }
        SkipPastEqualsMisses(s1, w);
        if !AllSpace(st.text[s1.pos..]) {
          var a: nat, b: nat :| WordSpan(st.text, s1.pos, a, b) && AllSpace(st.text[b..])
            && SkipPastEquals(s1, w).1 == st.text[a..b];
          assert WordSpan(st.text, st.pos, a, b);
        }
      }
    }
  }

  /**
   * The first word read from a stream with more than white space left: it is
   * the earliest word span, and the spans left after it are exactly the others.
   */
  lemma FirstSpan(st: Stream, prev: string)
    requires st.Good() && st.Valid() && !AllSpace(st.text[st.pos..])
    ensures var j := SkipSpace(st.text, st.pos);
      var (s1, w) := ReadWord(st, prev);
      && !s1.fail && s1.eof == (s1.pos == |st.text|) && s1.pos > st.pos
      && WordSpan(st.text, st.pos, j, s1.pos) && w == st.text[j..s1.pos]
      && (forall a: nat, b: nat :: WordSpan(st.text, st.pos, a, b) ==> j <= a)
      && (forall a: nat, b: nat :: WordSpan(st.text, s1.pos, a, b) <==> WordSpan(st.text, st.pos, a, b) && a != j)
  {
    var j := SkipSpace(st.text, st.pos);
    var (s1, w) := ReadWord(st, prev);
    assert j < |st.text| by {
      BlankRest(st.text, st.pos);
    }
    forall a: nat, b: nat | WordSpan(st.text, st.pos, a, b)
      ensures j <= a
    {
      assert !IsSpace(st.text[a]);
    }
    forall a: nat, b: nat
      ensures WordSpan(st.text, s1.pos, a, b) <==> WordSpan(st.text, st.pos, a, b) && a != j
    {
      if WordSpan(st.text, st.pos, a, b) && a != j {
        assert a > j;
        assert a > s1.pos by {
          assert IsSpace(st.text[a - 1]);
        }
      }
    }
  }

  /** Only white space from `i` on is exactly what makes skipping reach the end. */
  lemma BlankRest(text: string, i: nat)
    requires i <= |text|
    ensures AllSpace(text[i..]) <==> SkipSpace(text, i) == |text|
  {
    var j := SkipSpace(text, i);
    if AllSpace(text[i..]) {
      forall m | i <= m < |text|
        ensures IsSpace(text[m])
      {
        assert text[m] == text[i..][m - i];
      }
      SkipSpaceAt(text, i, |text|);
    }
    if j == |text| {
      forall m | 0 <= m < |text[i..]|
        ensures IsSpace(text[i..][m])
      {
        assert text[i..][m] == text[i + m];
      }
    }
  }

  lemma {:induction false} DigitRunOver(digits: string, after: string)
    requires AllDigits(digits)
    requires after != [] && !IsDigit(after[0])
    ensures DigitRun(digits + after) == |digits|
  {
    if digits != [] {
      assert (digits + after)[1..] == digits[1..] + after;
      DigitRunOver(digits[1..], after);
    } else {
      assert digits + after == after;
    }
  }
}
