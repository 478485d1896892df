/**
 * The textual repairs `get_qstat_json` makes to the raw `qstat -f -Fjson`
 * dump before handing it to the JSON parser: a non-string `Job_Name` becomes
 * the string "Unknown", the `PBS_O_PATH` entry is deleted, and the numbers
 * with an exponent under `expl`, `rho_low` and `rho_high` become the string
 * "float". Each byte of the dump is one `char` here.
 *
 * Every pattern is a `Rule`. `InLanguage` says which strings a rule's regular
 * expression denotes, written clause by clause after the expression; `MatchLen`
 * is a greedy scanner, proved to find the longest prefix in that language
 * (`MatchSound`, `MatchLongest`). For these four patterns the first match of
 * Python's backtracking engine is the longest one, so `Sub` is `re.sub`
 * (and, for a literal, `bytes.replace`): leftmost, non-overlapping.
 */
module FeedRepair {
  import opened Wrappers
  import opened Text

  const JobNameKey := "\"Job_Name\":"
  const PathKey := "\"PBS_O_PATH\":"
  /** The literal `bytes.replace` fixes first. */
  const InfJobName := "\"Job_Name\":inf,"
  /** What both `Job_Name` repairs write instead. */
  const UnknownJobName := "\"Job_Name\":\"Unknown\","
  /** The literal removed from the decoded text just before parsing. */
  const CaretNoise := "^\"^^"
  /** The keys whose exponent-form numbers are replaced, in the order they are visited. */
  const FloatKeys: seq<string> := ["expl", "rho_low", "rho_high"]

  datatype Rule =
    | Literal(pat: string) // the bytes themselves
    | DigitJobName         // "Job_Name":\d+,
    | PbsPath              // "PBS_O_PATH":\S+,
    | Exponent(key: string) // "<key>":[+\-]?(?:0|[1-9]\d*)(?:\.\d*)?(?:[eE][+\-]?\d+)

  /** The fixed text every match of the rule begins with. */
  function Lead(r: Rule): string {
    match r
    case Literal(p) => p
    case DigitJobName => JobNameKey
    case PbsPath => PathKey
    case Exponent(k) => "\"" + k + "\":"
  }

  /** What an exponent repair writes: the key with the string "float". */
  function FloatText(key: string): string {
    "\"" + key + "\":\"float\""
  }

  // ---------------------------------------------------------------------
  // Runs of characters
  // ---------------------------------------------------------------------

  /** Length of the longest prefix of `t` whose characters all satisfy `p`. */
  function Span(p: char -> bool, t: string): (k: nat)
    ensures k <= |t|
    decreases |t|
  {
    if |t| > 0 && p(t[0]) then 1 + Span(p, t[1..]) else 0
  }

  lemma {:induction false} SpanSound(p: char -> bool, t: string)
    ensures forall i :: 0 <= i < Span(p, t) ==> p(t[i])
    ensures Span(p, t) < |t| ==> !p(t[Span(p, t)])
    decreases |t|
  {
    if |t| > 0 && p(t[0]) {
      SpanSound(p, t[1..]);
      forall i | 0 <= i < Span(p, t) ensures p(t[i]) {
        if i > 0 {
          assert t[i] == t[1..][i - 1];
        }
      }
    }
  }

  lemma {:induction false} SpanLongest(p: char -> bool, t: string, m: nat)
    requires m <= |t|
    requires forall i :: 0 <= i < m ==> p(t[i])
    ensures m <= Span(p, t)
    decreases |t|
  {
    if m > 0 {
      assert p(t[0]);
      assert forall i :: 0 <= i < m - 1 ==> p(t[1..][i]) by {
        forall i | 0 <= i < m - 1 ensures p(t[1..][i]) {
          assert t[1..][i] == t[i + 1];
        }
      }
      SpanLongest(p, t[1..], m - 1);
    }
  }

  /** `\s` in a bytes pattern: exactly space, tab, newline, return, form feed and vertical tab. */
  predicate RegexSpace(c: char) {
    c == ' ' || '\t' <= c <= '\r'
  }

  /** `\S` in a bytes pattern. */
  predicate NotSpace(c: char) {
    !RegexSpace(c)
  }

  // ---------------------------------------------------------------------
  // The number with a mandatory exponent, clause by clause
  // ---------------------------------------------------------------------

  predicate IsSign(c: char) {
    c == '+' || c == '-'
  }

  predicate IsExponentMark(c: char) {
    c == 'e' || c == 'E'
  }

  /** `[+\-]?\d+` */
  predicate SignedDigits(t: string) {
    IsDigits(t) || (|t| > 0 && IsSign(t[0]) && IsDigits(t[1..]))
  }

  /** `[eE][+\-]?\d+` */
  predicate ExponentPart(t: string) {
    |t| > 0 && IsExponentMark(t[0]) && SignedDigits(t[1..])
  }

  /** `\d*` then the exponent: the digits after a decimal point. */
  predicate DigitsThenExponent(t: string)
    decreases |t|
  {
    ExponentPart(t) || (|t| > 0 && IsDigit(t[0]) && DigitsThenExponent(t[1..]))
  }

  /** `(?:\.\d*)?` then the exponent: everything after the integer part. */
  predicate AfterInteger(t: string) {
    ExponentPart(t) || (|t| > 0 && t[0] == '.' && DigitsThenExponent(t[1..]))
  }

  /** `\d*` then the rest: the digits after a leading `[1-9]`. */
  predicate DigitsThenAfterInteger(t: string)
    decreases |t|
  {
    AfterInteger(t) || (|t| > 0 && IsDigit(t[0]) && DigitsThenAfterInteger(t[1..]))
  }

  /** `(?:0|[1-9]\d*)` then the rest. */
  predicate UnsignedNumber(t: string) {
    && |t| > 0
    && ((t[0] == '0' && AfterInteger(t[1..])) || ('1' <= t[0] <= '9' && DigitsThenAfterInteger(t[1..])))
  }

  /** `[+\-]?(?:0|[1-9]\d*)(?:\.\d*)?(?:[eE][+\-]?\d+)` */
  predicate ExponentNumber(t: string) {
    UnsignedNumber(t) || (|t| > 0 && IsSign(t[0]) && UnsignedNumber(t[1..]))
  }

  /** A scan result moved past `d` characters already consumed. */
  function Shift(o: Option<nat>, d: nat): (r: Option<nat>)
    ensures r.Some? <==> o.Some?
    ensures r.Some? ==> r.value == o.value + d
  {
    match o
    case None => None
    case Some(n) => Some(n + d)
  }

  function ScanSignedDigits(t: string): (o: Option<nat>)
    ensures o.Some? ==> 0 < o.value <= |t|
  {
    var sign := if |t| > 0 && IsSign(t[0]) then 1 else 0;
    var k := Span(IsDigit, t[sign..]);
    if k > 0 then Some(sign + k) else None
  }

  function ScanExponent(t: string): (o: Option<nat>)
    ensures o.Some? ==> 0 < o.value <= |t|
  {
    if |t| > 0 && IsExponentMark(t[0]) then Shift(ScanSignedDigits(t[1..]), 1) else None
  }

  function ScanDigitsThenExponent(t: string): (o: Option<nat>)
    ensures o.Some? ==> 0 < o.value <= |t|
    decreases |t|
  {
    if |t| > 0 && IsDigit(t[0]) then Shift(ScanDigitsThenExponent(t[1..]), 1) else ScanExponent(t)
  }

  function ScanAfterInteger(t: string): (o: Option<nat>)
    ensures o.Some? ==> 0 < o.value <= |t|
  {
    if |t| > 0 && t[0] == '.' then Shift(ScanDigitsThenExponent(t[1..]), 1) else ScanExponent(t)
  }

  function ScanDigitsThenAfterInteger(t: string): (o: Option<nat>)
    ensures o.Some? ==> 0 < o.value <= |t|
    decreases |t|
  {
    if |t| > 0 && IsDigit(t[0]) then Shift(ScanDigitsThenAfterInteger(t[1..]), 1) else ScanAfterInteger(t)
  }

  function ScanUnsigned(t: string): (o: Option<nat>)
    ensures o.Some? ==> 0 < o.value <= |t|
  {
    if |t| == 0 then None
    else if t[0] == '0' then Shift(ScanAfterInteger(t[1..]), 1)
    else if '1' <= t[0] <= '9' then Shift(ScanDigitsThenAfterInteger(t[1..]), 1)
    else None
  }

  function ScanNumber(t: string): (o: Option<nat>)
    ensures o.Some? ==> 0 < o.value <= |t|
  {
    if |t| > 0 && IsSign(t[0]) then Shift(ScanUnsigned(t[1..]), 1) else ScanUnsigned(t)
  }

  /** Taking `n` characters, then dropping the first, is dropping then taking `n - 1`. */
  lemma TakeDrop(t: string, n: nat)
    requires 0 < n <= |t|
    ensures t[..n][1..] == t[1..][..n - 1]
  {
  }

  lemma SignedDigitsScan(t: string)
    ensures ScanSignedDigits(t).Some? ==> SignedDigits(t[..ScanSignedDigits(t).value])
  {
    var sign := if |t| > 0 && IsSign(t[0]) then 1 else 0;
    var rest := t[sign..];
    var k := Span(IsDigit, rest);
    SpanSound(IsDigit, rest);
    if k > 0 {
      assert t[..sign + k][sign..] == rest[..k];
      assert IsDigits(rest[..k]);
    }
  }

  lemma SignedDigitsLongest(t: string, m: nat)
    requires m <= |t| && SignedDigits(t[..m])
    ensures ScanSignedDigits(t).Some? && m <= ScanSignedDigits(t).value
  {
    if |t| > 0 && IsSign(t[0]) {
      assert !IsDigit(t[..m][0]);
      TakeDrop(t, m);
      SpanLongest(IsDigit, t[1..], m - 1);
      assert m - 1 > 0;
    } else {
      SpanLongest(IsDigit, t, m);
    }
  }

  lemma ExponentScan(t: string)
    ensures ScanExponent(t).Some? ==> ExponentPart(t[..ScanExponent(t).value])
  {
    if |t| > 0 && IsExponentMark(t[0]) && ScanExponent(t).Some? {
      SignedDigitsScan(t[1..]);
      TakeDrop(t, ScanExponent(t).value);
    }
  }

  lemma ExponentLongest(t: string, m: nat)
    requires m <= |t| && ExponentPart(t[..m])
    ensures ScanExponent(t).Some? && m <= ScanExponent(t).value
  {
    TakeDrop(t, m);
    SignedDigitsLongest(t[1..], m - 1);
  }

  lemma {:induction false} DigitsThenExponentScan(t: string)
    ensures ScanDigitsThenExponent(t).Some? ==> DigitsThenExponent(t[..ScanDigitsThenExponent(t).value])
    decreases |t|
  {
    var o := ScanDigitsThenExponent(t);
    if o.Some? {
      if |t| > 0 && IsDigit(t[0]) {
        DigitsThenExponentScan(t[1..]);
        TakeDrop(t, o.value);
      } else {
        ExponentScan(t);
      }
    }
  }

  lemma {:induction false} DigitsThenExponentLongest(t: string, m: nat)
    requires m <= |t| && DigitsThenExponent(t[..m])
    ensures ScanDigitsThenExponent(t).Some? && m <= ScanDigitsThenExponent(t).value
    decreases |t|
  {
    if |t| > 0 && IsDigit(t[0]) {
      assert !ExponentPart(t[..m]);
      TakeDrop(t, m);
      DigitsThenExponentLongest(t[1..], m - 1);
    } else {
      assert ExponentPart(t[..m]);
      ExponentLongest(t, m);
    }
  }

  lemma AfterIntegerScan(t: string)
    ensures ScanAfterInteger(t).Some? ==> AfterInteger(t[..ScanAfterInteger(t).value])
  {
    var o := ScanAfterInteger(t);
    if o.Some? {
      if |t| > 0 && t[0] == '.' {
        DigitsThenExponentScan(t[1..]);
        TakeDrop(t, o.value);
      } else {
        ExponentScan(t);
      }
    }
  }

  lemma AfterIntegerLongest(t: string, m: nat)
    requires m <= |t| && AfterInteger(t[..m])
    ensures ScanAfterInteger(t).Some? && m <= ScanAfterInteger(t).value
  {
    if |t| > 0 && t[0] == '.' {
      assert !ExponentPart(t[..m]);
      TakeDrop(t, m);
      DigitsThenExponentLongest(t[1..], m - 1);
    } else {
      assert ExponentPart(t[..m]);
      ExponentLongest(t, m);
    }
  }

  lemma {:induction false} DigitsThenAfterIntegerScan(t: string)
    ensures ScanDigitsThenAfterInteger(t).Some? ==> DigitsThenAfterInteger(t[..ScanDigitsThenAfterInteger(t).value])
    decreases |t|
  {
    var o := ScanDigitsThenAfterInteger(t);
    if o.Some? {
      if |t| > 0 && IsDigit(t[0]) {
        DigitsThenAfterIntegerScan(t[1..]);
        TakeDrop(t, o.value);
      } else {
        AfterIntegerScan(t);
      }
    }
  }

  lemma {:induction false} DigitsThenAfterIntegerLongest(t: string, m: nat)
    requires m <= |t| && DigitsThenAfterInteger(t[..m])
    ensures ScanDigitsThenAfterInteger(t).Some? && m <= ScanDigitsThenAfterInteger(t).value
    decreases |t|
  {
    if |t| > 0 && IsDigit(t[0]) {
      assert !AfterInteger(t[..m]);
      TakeDrop(t, m);
      DigitsThenAfterIntegerLongest(t[1..], m - 1);
    } else {
      assert AfterInteger(t[..m]);
      AfterIntegerLongest(t, m);
    }
  }

  lemma UnsignedScan(t: string)
    ensures ScanUnsigned(t).Some? ==> UnsignedNumber(t[..ScanUnsigned(t).value])
  {
    var o := ScanUnsigned(t);
    if o.Some? {
      TakeDrop(t, o.value);
      if t[0] == '0' {
        AfterIntegerScan(t[1..]);
      } else {
        DigitsThenAfterIntegerScan(t[1..]);
      }
    }
  }

  lemma UnsignedLongest(t: string, m: nat)
    requires m <= |t| && UnsignedNumber(t[..m])
    ensures ScanUnsigned(t).Some? && m <= ScanUnsigned(t).value
  {
    TakeDrop(t, m);
    if t[0] == '0' {
      AfterIntegerLongest(t[1..], m - 1);
    } else {
      DigitsThenAfterIntegerLongest(t[1..], m - 1);
    }
  }

  lemma NumberScan(t: string)
    ensures ScanNumber(t).Some? ==> ExponentNumber(t[..ScanNumber(t).value])
  {
    var o := ScanNumber(t);
    if o.Some? {
      if |t| > 0 && IsSign(t[0]) {
        UnsignedScan(t[1..]);
        TakeDrop(t, o.value);
      } else {
        UnsignedScan(t);
      }
    }
  }

  lemma NumberLongest(t: string, m: nat)
    requires m <= |t| && ExponentNumber(t[..m])
    ensures ScanNumber(t).Some? && m <= ScanNumber(t).value
  {
    if |t| > 0 && IsSign(t[0]) {
      assert !UnsignedNumber(t[..m]);
      TakeDrop(t, m);
      UnsignedLongest(t[1..], m - 1);
    } else {
      assert UnsignedNumber(t[..m]);
      UnsignedLongest(t, m);
    }
  }

  // ---------------------------------------------------------------------
  // The patterns and their matches
  // ---------------------------------------------------------------------

  /** The last comma at an index in `[1, k)`: where `\S+,` ends after backtracking. */
  function LastComma(r: string, k: nat): (o: Option<nat>)
    requires k <= |r|
    ensures o.Some? ==> 1 <= o.value < k && r[o.value] == ','
  {
    if k <= 1 then None else if r[k - 1] == ',' then Some(k - 1) else LastComma(r, k - 1)
  }

  lemma {:induction false} LastCommaLongest(r: string, k: nat, j: nat)
    requires 1 <= j < k <= |r| && r[j] == ','
    ensures LastComma(r, k).Some? && j <= LastComma(r, k).value
  {
    if r[k - 1] != ',' {
      LastCommaLongest(r, k - 1, j);
    }
  }

  /** The strings a rule's pattern denotes. */
  predicate InLanguage(r: Rule, t: string) {
    match r
    case Literal(p) => t == p
    case DigitJobName =>
      |t| > |JobNameKey| && StartsWith(t, JobNameKey) && t[|t| - 1] == ','
      && IsDigits(t[|JobNameKey|..|t| - 1])
    case PbsPath =>
      |t| > |PathKey| + 1 && StartsWith(t, PathKey) && t[|t| - 1] == ','
      && forall i :: |PathKey| <= i < |t| - 1 ==> NotSpace(t[i])
    case Exponent(k) =>
      StartsWith(t, Lead(r)) && ExponentNumber(t[|Lead(r)|..])
  }

  /** Length of the match of `r` at the start of `s`, if any. */
  function MatchLen(r: Rule, s: string): (o: Option<nat>)
    ensures o.Some? ==> |Lead(r)| <= o.value <= |s|
  {
    if !StartsWith(s, Lead(r)) then None
    else
      var rest := s[|Lead(r)|..];
      match r
      case Literal(p) => Some(|p|)
      case DigitJobName =>
        var k := Span(IsDigit, rest);
        if k > 0 && k < |rest| && rest[k] == ',' then Some(|JobNameKey| + k + 1) else None
      case PbsPath =>
        Shift(LastComma(rest, Span(NotSpace, rest)), |PathKey| + 1)
      case Exponent(_) =>
        Shift(ScanNumber(rest), |Lead(r)|)
  }

  lemma DigitJobNameSound(s: string)
    ensures MatchLen(DigitJobName, s).Some? ==> InLanguage(DigitJobName, s[..MatchLen(DigitJobName, s).value])
  {
    var o := MatchLen(DigitJobName, s);
    if o.Some? {
      var t := s[..o.value];
      var rest := s[|JobNameKey|..];
      var k := Span(IsDigit, rest);
      SpanSound(IsDigit, rest);
      assert t[..|JobNameKey|] == JobNameKey;
      assert t[|JobNameKey|..|t| - 1] == rest[..k];
      assert t[|t| - 1] == rest[k];
    }
  }

  lemma PbsPathSound(s: string)
    ensures MatchLen(PbsPath, s).Some? ==> InLanguage(PbsPath, s[..MatchLen(PbsPath, s).value])
  {
    var o := MatchLen(PbsPath, s);
    if o.Some? {
      var t := s[..o.value];
      var rest := s[|PathKey|..];
      var k := Span(NotSpace, rest);
      SpanSound(NotSpace, rest);
      var j := LastComma(rest, k).value;
      assert o.value == |PathKey| + j + 1;
      assert t[..|PathKey|] == PathKey;
      assert t[|t| - 1] == rest[j];
      forall i | |PathKey| <= i < |t| - 1 ensures NotSpace(t[i]) {
        assert t[i] == rest[i - |PathKey|];
      }
    }
  }

  lemma ExponentSound(key: string, s: string)
    ensures MatchLen(Exponent(key), s).Some? ==> InLanguage(Exponent(key), s[..MatchLen(Exponent(key), s).value])
  {
    var r := Exponent(key);
    var o := MatchLen(r, s);
    if o.Some? {
      var lead := Lead(r);
      var t := s[..o.value];
      var rest := s[|lead|..];
      NumberScan(rest);
      assert t[..|lead|] == lead;
      assert t[|lead|..] == rest[..o.value - |lead|];
    }
  }

  /** What `MatchLen` finds is a match. */
  lemma MatchSound(r: Rule, s: string)
    ensures MatchLen(r, s).Some? ==> InLanguage(r, s[..MatchLen(r, s).value])
  {
    match r
    case Literal(p) =>
    case DigitJobName => DigitJobNameSound(s);
    case PbsPath => PbsPathSound(s);
    case Exponent(key) => ExponentSound(key, s);
  }

  /** No prefix of `s` longer than what `MatchLen` finds is a match, and a match exists only if it finds one. */
  lemma DigitJobNameLongest(s: string, m: nat)
    requires m <= |s| && InLanguage(DigitJobName, s[..m])
    ensures MatchLen(DigitJobName, s).Some? && m <= MatchLen(DigitJobName, s).value
  {
    var t := s[..m];
    var lead := JobNameKey;
    assert t[..|lead|] == lead;
    var rest := s[|lead|..];
    var j := m - 1 - |lead|;
    assert t[|lead|..|t| - 1] == rest[..j];
    assert rest[j] == t[|t| - 1];
    DigitRunEndsAtComma(rest, j);
    DigitJobNameMatchIs(s, j);
  }

  /** A run of digits closed by a comma is exactly what the digit scan covers. */
  lemma DigitRunEndsAtComma(rest: string, j: nat)
    requires j < |rest| && IsDigits(rest[..j]) && rest[j] == ','
    ensures Span(IsDigit, rest) == j
  {
    forall i | 0 <= i < j ensures IsDigit(rest[i]) {
      assert rest[i] == rest[..j][i];
    }
    SpanLongest(IsDigit, rest, j);
    SpanSound(IsDigit, rest);
  }

  lemma DigitJobNameMatchIs(s: string, j: nat)
    requires StartsWith(s, JobNameKey) && 0 < j < |s| - |JobNameKey|
    requires Span(IsDigit, s[|JobNameKey|..]) == j && s[|JobNameKey| + j] == ','
    ensures MatchLen(DigitJobName, s) == Some(|JobNameKey| + j + 1)
  {
  }

  lemma PbsPathLongest(s: string, m: nat)
    requires m <= |s| && InLanguage(PbsPath, s[..m])
    ensures MatchLen(PbsPath, s).Some? && m <= MatchLen(PbsPath, s).value
  {
    var t := s[..m];
    var lead := PathKey;
    assert t[..|lead|] == lead;
    assert StartsWith(s, lead);
    var rest := s[|lead|..];
    var j := m - 1 - |lead|;
    forall i | 0 <= i < j + 1 ensures NotSpace(rest[i]) {
      assert rest[i] == t[i + |lead|];
    }
    SpanLongest(NotSpace, rest, j + 1);
    LastCommaLongest(rest, Span(NotSpace, rest), j);
  }

  lemma ExponentRuleLongest(key: string, s: string, m: nat)
    requires m <= |s| && InLanguage(Exponent(key), s[..m])
    ensures MatchLen(Exponent(key), s).Some? && m <= MatchLen(Exponent(key), s).value
  {
    var t := s[..m];
    var lead := Lead(Exponent(key));
    assert t[..|lead|] == lead;
    assert StartsWith(s, lead);
    var rest := s[|lead|..];
    assert t[|lead|..] == rest[..m - |lead|];
    NumberLongest(rest, m - |lead|);
  }

  /** No longer text of the rule's language begins `s` than the match found. */
  lemma MatchLongest(r: Rule, s: string, m: nat)
    requires m <= |s| && InLanguage(r, s[..m])
    ensures MatchLen(r, s).Some? && m <= MatchLen(r, s).value
  {
    match r
    case Literal(p) =>
      assert s[..|p|] == p;
    case DigitJobName => DigitJobNameLongest(s, m);
    case PbsPath => PbsPathLongest(s, m);
    case Exponent(key) => ExponentRuleLongest(key, s, m);
  }

  /** A number with an exponent after the key is matched up to the end of its exponent digits. */
  lemma ExponentFormMatched()
    ensures MatchLen(Exponent("expl"), "\"expl\":1.5e-3,") == Some(13)
  {
    var s := "\"expl\":1.5e-3,";
    assert Lead(Exponent("expl")) == "\"expl\":";
    assert StartsWith(s, "\"expl\":");
    var rest := s[7..];
    assert rest == "1.5e-3,";
    ExponentNumberLength();
  }

  lemma ExponentNumberLength() ensures ScanNumber("1.5e-3,") == Some(6) {
    assert Span(IsDigit, ",") == 0;
    assert Span(IsDigit, "3,") == 1;
    assert ScanSignedDigits("-3,") == Some(2);
    assert ScanExponent("e-3,") == Some(3);
    assert ScanDigitsThenExponent("e-3,") == Some(3);
    assert ScanDigitsThenExponent("5e-3,") == Some(4);
    assert ScanAfterInteger(".5e-3,") == Some(5);
    assert ScanDigitsThenAfterInteger(".5e-3,") == Some(5);
    assert ScanUnsigned("1.5e-3,") == Some(6);
  }

  /** A plain decimal without an exponent is not touched. */
  lemma PlainDecimalUnmatched() ensures MatchLen(Exponent("expl"), "\"expl\":1.5,").None? {
    var s := "\"expl\":1.5,";
    assert Lead(Exponent("expl")) == "\"expl\":";
    assert StartsWith(s, "\"expl\":");
    var rest := s[7..];
    assert rest == "1.5,";
    PlainDecimalNotNumber();
  }

  lemma PlainDecimalNotNumber() ensures ScanNumber("1.5,").None? {
    assert ScanExponent(",").None?;
    assert ScanDigitsThenExponent(",").None?;
    assert ScanDigitsThenExponent("5,").None?;
    assert ScanAfterInteger(".5,").None?;
    assert ScanDigitsThenAfterInteger(".5,").None?;
    assert ScanUnsigned("1.5,").None?;
  }

  /** The deleted `PBS_O_PATH` text runs to the last comma before the next whitespace. */
  lemma PathRunsToLastComma() ensures MatchLen(PbsPath, "\"PBS_O_PATH\":/a,/b, x") == Some(19) {
    var s := "\"PBS_O_PATH\":/a,/b, x";
    assert StartsWith(s, PathKey);
    var rest := s[13..];
    assert rest == "/a,/b, x";
    PathRunLength();
  }

  lemma PathRunLength() ensures LastComma("/a,/b, x", Span(NotSpace, "/a,/b, x")) == Some(5) {
    PathRunSpan();
    assert "/a,/b, x"[5] == ',';
  }

  lemma PathRunSpan() ensures Span(NotSpace, "/a,/b, x") == 6 {
    assert Span(NotSpace, " x") == 0;
    assert Span(NotSpace, ", x") == 1;
    assert Span(NotSpace, "b, x") == 2;
    assert Span(NotSpace, "/b, x") == 3;
    assert Span(NotSpace, ",/b, x") == 4;
    assert Span(NotSpace, "a,/b, x") == 5;
  }

  /** A numeric job name, digits then a comma, is matched whole. */
  lemma NumericJobNameMatched() ensures MatchLen(DigitJobName, "\"Job_Name\":42,") == Some(14) {
    var s := "\"Job_Name\":42,";
    assert StartsWith(s, JobNameKey);
    var rest := s[11..];
    assert rest == "42,";
    assert Span(IsDigit, ",") == 0;
    assert Span(IsDigit, "2,") == 1;
    assert Span(IsDigit, rest) == 2;
  }

  // ---------------------------------------------------------------------
  // Substitution and the repair pipeline
  // ---------------------------------------------------------------------

  /** A matcher gives the length of the match that begins a text, if any; a match is never empty. */
  ghost predicate Advances(m: string -> Option<nat>) {
    forall t :: m(t).Some? ==> 0 < m(t).value <= |t|
  }

  /** `re.sub` with matcher `m`: scan left to right, replace each match, resume after it. */
  function SubWith(m: string -> Option<nat>, rep: string, s: string): string
    requires Advances(m)
    decreases |s|
  {
    if s == [] then []
    else match m(s)
      case Some(n) => rep + SubWith(m, rep, s[n..])
      case None => [s[0]] + SubWith(m, rep, s[1..])
  }

  /** Text before the first match is copied through unchanged. */
  lemma {:induction false} SubWithSkips(m: string -> Option<nat>, rep: string, s: string, k: nat)
    requires Advances(m)
    requires k <= |s|
    requires forall i :: 0 <= i < k ==> m(s[i..]).None?
    ensures SubWith(m, rep, s) == s[..k] + SubWith(m, rep, s[k..])
    decreases k
  {
    if k == 0 {
      assert s[..0] == [] && s[0..] == s;
    } else {
      SubWithSkips(m, rep, s, k - 1);
      SubWithSkipOne(m, rep, s, k - 1);
      SplitAt(s, k - 1, SubWith(m, rep, s[k..]));
    }
  }

  lemma SubWithSkipOne(m: string -> Option<nat>, rep: string, s: string, i: nat)
    requires Advances(m) && i < |s| && m(s[i..]).None?
    ensures SubWith(m, rep, s[i..]) == [s[i]] + SubWith(m, rep, s[i + 1..])
  {
    assert s[i..][1..] == s[i + 1..];
  }

  lemma SplitAt(s: string, i: nat, tail: string)
    requires i < |s|
    ensures s[..i] + ([s[i]] + tail) == s[..i + 1] + tail
  {
  }

  /** The matcher of a rule. */
  function Matcher(r: Rule): (m: string -> Option<nat>)
    ensures forall t :: m(t) == MatchLen(r, t)
  {
    t => MatchLen(r, t)
  }

  lemma MatcherAdvances(r: Rule)
    requires |Lead(r)| > 0
    ensures Advances(Matcher(r))
  {
  }

  /** `re.sub(pattern, rep, s)` for the pattern of rule `r`. */
  function Sub(r: Rule, rep: string, s: string): string
    requires |Lead(r)| > 0
  {
    MatcherAdvances(r);
    SubWith(Matcher(r), rep, s)
  }

  /** No match of `r` begins at offset `i` of `s`. */
  predicate NoMatchAt(r: Rule, s: string, i: nat)
    requires i <= |s|
  {
    MatchLen(r, s[i..]).None?
  }

  /** No match of `r` begins anywhere in `s`. */
  predicate Unmatched(r: Rule, s: string) {
    forall i :: 0 <= i < |s| ==> NoMatchAt(r, s, i)
  }

  /** Text before the first match of `r` is copied through unchanged. */
  lemma SubSkipsUnmatched(r: Rule, rep: string, s: string, k: nat)
    requires |Lead(r)| > 0
    requires k <= |s|
    requires forall i :: 0 <= i < k ==> NoMatchAt(r, s, i)
    ensures Sub(r, rep, s) == s[..k] + Sub(r, rep, s[k..])
  {
    MatcherAdvances(r);
    var m := Matcher(r);
    forall i | 0 <= i < k ensures m(s[i..]).None? {
      assert NoMatchAt(r, s, i);
    }
    SubWithSkips(m, rep, s, k);
  }

  /** Text with no match of `r` is left as it is. */
  lemma SubUnmatchedIsIdentity(r: Rule, rep: string, s: string)
    requires |Lead(r)| > 0 && Unmatched(r, s)
    ensures Sub(r, rep, s) == s
  {
    SubSkipsUnmatched(r, rep, s, |s|);
    assert s[..|s|] == s;
  }

  /** The first match, found at `k` with length `n`, is replaced, and scanning resumes after it. */
  lemma SubWithReplacesFirst(m: string -> Option<nat>, rep: string, s: string, k: nat, n: nat)
    requires Advances(m)
    requires k < |s| && m(s[k..]) == Some(n)
    requires forall i :: 0 <= i < k ==> m(s[i..]).None?
    ensures k + n <= |s|
    ensures SubWith(m, rep, s) == s[..k] + rep + SubWith(m, rep, s[k + n..])
  {
    SubWithSkips(m, rep, s, k);
    var t := s[k..];
    assert SubWith(m, rep, t) == rep + SubWith(m, rep, t[n..]);
    assert t[n..] == s[k + n..];
  }

  /** The first match, found at `k` with length `n`, is replaced, and scanning resumes after it. */
  lemma SubReplacesFirstMatch(r: Rule, rep: string, s: string, k: nat, n: nat)
    requires |Lead(r)| > 0
    requires k < |s| && MatchLen(r, s[k..]) == Some(n)
    requires forall i :: 0 <= i < k ==> NoMatchAt(r, s, i)
    ensures k + n <= |s|
    ensures Sub(r, rep, s) == s[..k] + rep + Sub(r, rep, s[k + n..])
  {
    MatcherAdvances(r);
    var m := Matcher(r);
    forall i | 0 <= i < k ensures m(s[i..]).None? {
      assert NoMatchAt(r, s, i);
    }
    SubWithReplacesFirst(m, rep, s, k, n);
  }

  /** The `for` loop over the float keys, one `re.sub` per key in order. */
  function RepairExponents(keys: seq<string>, s: string): string
    decreases |keys|
  {
    if keys == [] then s
    else RepairExponents(keys[1..], Sub(Exponent(keys[0]), FloatText(keys[0]), s))
  }

  /** The four repairs in order, then the removal of the caret noise. */
  function CleanText(raw: string): string {
    var s1 := Sub(Literal(InfJobName), UnknownJobName, raw);
    var s2 := Sub(DigitJobName, UnknownJobName, s1);
    var s3 := Sub(PbsPath, "", s2);
    var s4 := RepairExponents(FloatKeys, s3);
    Sub(Literal(CaretNoise), "", s4)
  }

  /** A dump that needs no repair reaches the parser unchanged. */
  lemma CleanTextKeepsCleanFeed(raw: string)
    requires Unmatched(Literal(InfJobName), raw)
    requires Unmatched(DigitJobName, raw)
    requires Unmatched(PbsPath, raw)
    requires forall k :: k in FloatKeys ==> Unmatched(Exponent(k), raw)
    requires Unmatched(Literal(CaretNoise), raw)
    ensures CleanText(raw) == raw
  {
    SubUnmatchedIsIdentity(Literal(InfJobName), UnknownJobName, raw);
    SubUnmatchedIsIdentity(DigitJobName, UnknownJobName, raw);
    SubUnmatchedIsIdentity(PbsPath, "", raw);
    var keys := FloatKeys;
    SubUnmatchedIsIdentity(Exponent(keys[0]), FloatText(keys[0]), raw);
    SubUnmatchedIsIdentity(Exponent(keys[1]), FloatText(keys[1]), raw);
    SubUnmatchedIsIdentity(Exponent(keys[2]), FloatText(keys[2]), raw);
    assert RepairExponents(keys[3..], raw) == raw;
    SubUnmatchedIsIdentity(Literal(CaretNoise), "", raw);
  }

  /** The first offset at or after `i` where a match of `r` begins, or `|s|`. */
  function FirstMatch(r: Rule, s: string, i: nat): (k: nat)
    requires i <= |s|
    ensures i <= k <= |s|
    ensures forall j :: i <= j < k ==> NoMatchAt(r, s, j)
    ensures k < |s| ==> MatchLen(r, s[k..]).Some?
    decreases |s| - i
  {
    if i == |s| then |s|
    else if MatchLen(r, s[i..]).Some? then i
    else FirstMatch(r, s, i + 1)
  }

  /** A character that occurs nowhere in `s` but is part of the rule's lead rules out every match. */
  lemma UnmatchedWithoutLeadChar(r: Rule, s: string, j: nat)
    requires j < |Lead(r)| && Lead(r)[j] !in s
    ensures Unmatched(r, s)
  {
    forall i | 0 <= i < |s| ensures NoMatchAt(r, s, i) {
      var n := |Lead(r)|;
      assert n <= |s[i..]| ==> s[i..][..n][j] == s[i + j] && s[i + j] in s;
    }
  }

  /** The written name is not a numeric one: `"Unknown"` follows the key. */
  lemma NoNumericNameAtUnknown(tail: string)
    ensures MatchLen(DigitJobName, UnknownJobName + tail).None?
  {
    var t := UnknownJobName + tail;
    var rest := t[|JobNameKey|..];
    assert rest[0] == '"';
  }

  /** A `"` inside a numeric-name match is the key's closing quote, followed by `:`. */
  lemma QuoteInNumericName(t: string, q: nat)
    requires InLanguage(DigitJobName, t) && 1 <= q < |t|
    ensures t[q] == '"' ==> q == 9 && t[q + 1] == ':'
  {
    assert t[..|JobNameKey|] == JobNameKey;
    if |JobNameKey| <= q < |t| - 1 {
      assert t[q] == t[|JobNameKey|..|t| - 1][q - |JobNameKey|];
    }
  }

  /** Nor does one begin inside the written name: no `"J` occurs in it after its first character. */
  lemma NoNumericNameInsideUnknown(tail: string, j: nat)
    requires 1 <= j < |UnknownJobName|
    ensures MatchLen(DigitJobName, (UnknownJobName + tail)[j..]).None?
  {
    var u := (UnknownJobName + tail)[j..];
    assert u[0] != '"' || u[1] != 'J' by {
      if j < |UnknownJobName| - 1 {
        assert u[0] == UnknownJobName[j] && u[1] == UnknownJobName[j + 1];
      }
    }
    assert |JobNameKey| <= |u| ==> u[..|JobNameKey|][0] == u[0] && u[..|JobNameKey|][1] == u[1];
  }

  /** A match lying wholly in text before offset `k` of `s` was already a match there. */
  lemma MatchBeforeIsMatchInSource(s: string, k: nat, w: string, p: nat, len: nat)
    requires p < k <= |s| && p + len <= k
    requires MatchLen(DigitJobName, (s[..k] + w)[p..]) == Some(len)
    ensures MatchLen(DigitJobName, s[p..]).Some?
  {
    var u := (s[..k] + w)[p..];
    MatchSound(DigitJobName, u);
    assert u[..len] == s[p..][..len];
    MatchLongest(DigitJobName, s[p..], len);
  }

  /** A match that reaches text beginning with `"J` would hold that `"J` where the key has `":`. */
  lemma MatchNotReachingQuoteJ(s: string, k: nat, w: string, p: nat, len: nat)
    requires p < k <= |s| && |w| >= 2 && w[0] == '"' && w[1] == 'J'
    requires MatchLen(DigitJobName, (s[..k] + w)[p..]) == Some(len)
    ensures p + len <= k
  {
    var u := (s[..k] + w)[p..];
    MatchSound(DigitJobName, u);
    if p + len > k {
      var t := u[..len];
      var q := k - p;
      assert t[q] == w[0];
      assert q + 1 < len ==> t[q + 1] == w[1];
      QuoteInNumericName(t, q);
    }
  }

  /**
   * A numeric name cannot begin in text copied before a written name: it
   * would either lie wholly in text the scan already passed, or need the
   * written name's `"J` where the key has `":`.
   */
  lemma NoMatchBeforeQuoteJ(s: string, k: nat, w: string, p: nat)
    requires p < k <= |s| && |w| >= 2 && w[0] == '"' && w[1] == 'J'
    requires forall i :: 0 <= i < k ==> NoMatchAt(DigitJobName, s, i)
    ensures MatchLen(DigitJobName, (s[..k] + w)[p..]).None?
  {
    var o := MatchLen(DigitJobName, (s[..k] + w)[p..]);
    if o.Some? {
      MatchNotReachingQuoteJ(s, k, w, p, o.value);
      assert NoMatchAt(DigitJobName, s, p);
      MatchBeforeIsMatchInSource(s, k, w, p, o.value);
    }
  }

  /** Offsets past a prefix of length `k` index into what follows it. */
  lemma DropPrefix(a: string, w: string, p: nat)
    requires |a| <= p <= |a| + |w|
    ensures (a + w)[p..] == w[p - |a|..]
  {
  }

  /**
   * Text the scan passed without a match, then a written name, then repaired
   * text with no numeric name, holds no numeric name.
   */
  lemma CopyThenUnknownUnmatched(s: string, k: nat, tail: string)
    requires k <= |s|
    requires forall i :: 0 <= i < k ==> NoMatchAt(DigitJobName, s, i)
    requires Unmatched(DigitJobName, tail)
    ensures Unmatched(DigitJobName, s[..k] + UnknownJobName + tail)
  {
    var w := UnknownJobName + tail;
    var out := s[..k] + UnknownJobName + tail;
    assert out == s[..k] + w;
    assert w[0] == '"' && w[1] == 'J';
    forall p | 0 <= p < |out| ensures NoMatchAt(DigitJobName, out, p) {
      if p < k {
        NoMatchBeforeQuoteJ(s, k, w, p);
      } else {
        DropPrefix(s[..k], w, p);
        if p == k {
          NoNumericNameAtUnknown(tail);
        } else if p < k + |UnknownJobName| {
          NoNumericNameInsideUnknown(tail, p - k);
        } else {
          DropPrefix(UnknownJobName, tail, p - k);
          assert NoMatchAt(DigitJobName, tail, p - k - |UnknownJobName|);
        }
      }
    }
  }

  /** After the numeric-name repair, no numeric `Job_Name` is left in the text. */
  lemma {:induction false} NameRepairLeavesNoNumericName(s: string)
    ensures Unmatched(DigitJobName, Sub(DigitJobName, UnknownJobName, s))
    decreases |s|
  {
    var k := FirstMatch(DigitJobName, s, 0);
    if k == |s| {
      SubUnmatchedIsIdentity(DigitJobName, UnknownJobName, s);
    } else {
      var n := MatchLen(DigitJobName, s[k..]).value;
      SubReplacesFirstMatch(DigitJobName, UnknownJobName, s, k, n);
      var tail := Sub(DigitJobName, UnknownJobName, s[k + n..]);
      NameRepairLeavesNoNumericName(s[k + n..]);
      CopyThenUnknownUnmatched(s, k, tail);
    }
  }

  /** A name with leading zeros is a numeric name, matched whole. */
  lemma LeadingZeroNameMatched() ensures MatchLen(DigitJobName, "\"Job_Name\":007,") == Some(15) {
    var s := "\"Job_Name\":007,";
    assert StartsWith(s, JobNameKey);
    var rest := s[11..];
    assert rest == "007,";
    assert Span(IsDigit, ",") == 0;
    assert Span(IsDigit, "7,") == 1;
    assert Span(IsDigit, "07,") == 2;
    assert Span(IsDigit, rest) == 3;
  }

  /** The written name holds none of the characters that set the later patterns apart. */
  lemma UnknownLacks()
    ensures 'P' !in UnknownJobName && 'x' !in UnknownJobName
    ensures 'r' !in UnknownJobName && '^' !in UnknownJobName
  {
  }

  /** An exponent repair leaves the written name alone when its lead holds a character the name lacks. */
  lemma UnknownKeepsExponent(key: string, j: nat)
    requires j < |Lead(Exponent(key))| && Lead(Exponent(key))[j] !in UnknownJobName
    ensures Sub(Exponent(key), FloatText(key), UnknownJobName) == UnknownJobName
  {
    UnmatchedWithoutLeadChar(Exponent(key), UnknownJobName, j);
    SubUnmatchedIsIdentity(Exponent(key), FloatText(key), UnknownJobName);
  }

  /** The written name has no exponent-form number under a float key. */
  lemma UnknownKeepsExponents()
    ensures RepairExponents(FloatKeys, UnknownJobName) == UnknownJobName
  {
    var s := UnknownJobName;
    UnknownLacks();
    assert Lead(Exponent("expl"))[2] == 'x';
    assert Lead(Exponent("rho_low"))[1] == 'r';
    assert Lead(Exponent("rho_high"))[1] == 'r';
    UnknownKeepsExponent("expl", 2);
    UnknownKeepsExponent("rho_low", 1);
    UnknownKeepsExponent("rho_high", 1);
    var keys := FloatKeys;
    assert keys[2..][0] == "rho_high" && keys[2..][1..] == keys[3..] == [];
    assert RepairExponents(keys[2..], s) == s;
    assert keys[1..][0] == "rho_low" && keys[1..][1..] == keys[2..];
    assert RepairExponents(keys[1..], s) == s;
  }

  /** The written name passes the later repairs untouched. */
  lemma UnknownSurvivesLaterRepairs()
    ensures Sub(Literal(CaretNoise), "", RepairExponents(FloatKeys, Sub(PbsPath, "", UnknownJobName))) == UnknownJobName
  {
    var s := UnknownJobName;
    UnknownLacks();
    assert Lead(PbsPath)[1] == 'P';
    UnmatchedWithoutLeadChar(PbsPath, s, 1);
    SubUnmatchedIsIdentity(PbsPath, "", s);
    UnknownKeepsExponents();
    UnmatchedWithoutLeadChar(Literal(CaretNoise), s, 0);
    SubUnmatchedIsIdentity(Literal(CaretNoise), "", s);
  }

  /** The literal `inf` repair leaves such a name alone: it has no `i`. */
  lemma LeadingZeroNameNotInf(raw: string)
    requires raw == "\"Job_Name\":007,"
    ensures Sub(Literal(InfJobName), UnknownJobName, raw) == raw
  {
    assert InfJobName[11] == 'i' && 'i' !in raw;
    UnmatchedWithoutLeadChar(Literal(InfJobName), raw, 11);
    SubUnmatchedIsIdentity(Literal(InfJobName), UnknownJobName, raw);
  }

  /** The two `Job_Name` repairs turn a name with leading zeros into "Unknown". */
  lemma LeadingZeroNameRepaired(raw: string)
    requires raw == "\"Job_Name\":007,"
    ensures Sub(DigitJobName, UnknownJobName, Sub(Literal(InfJobName), UnknownJobName, raw)) == UnknownJobName
  {
    LeadingZeroNameNotInf(raw);
    LeadingZeroNameMatched();
    assert raw[0..] == raw;
    SubReplacesFirstMatch(DigitJobName, UnknownJobName, raw, 0, 15);
    assert raw[15..] == [];
  }

  /** A job name written with leading zeros, which JSON forbids, is repaired to "Unknown" and nothing else changes. */
  lemma LeadingZeroNameCleaned()
    ensures CleanText("\"Job_Name\":007,") == UnknownJobName
  {
    var raw := "\"Job_Name\":007,";
    var s2 := Sub(DigitJobName, UnknownJobName, Sub(Literal(InfJobName), UnknownJobName, raw));
    LeadingZeroNameRepaired(raw);
    UnknownSurvivesLaterRepairs();
    assert CleanText(raw) == Sub(Literal(CaretNoise), "", RepairExponents(FloatKeys, Sub(PbsPath, "", s2)));
  }
}
