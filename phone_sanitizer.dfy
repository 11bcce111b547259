/**
 * `send_whatsapp_sanitize_phone`, the settings callback for the stored phone
 * number: every PCRE whitespace byte is removed, the rest is checked against
 * `^[0-9]+$`, and the stripped string is returned whether or not the check
 * passed. The `invalid_phone` settings error is the returned flag.
 */
module PhoneSanitizer {
  import opened PhpString

  /** PCRE `\s` without the `u` flag: space, "\t", "\n", "\x0B", "\f" and "\r". */
  predicate IsPcreSpace(c: Byte) {
    c == ' ' || '\t' <= c <= '\r'
  }

  predicate NoSpace(s: Bytes) {
    forall k :: 0 <= k < |s| ==> !IsPcreSpace(s[k])
  }

  predicate IsDigit(c: Byte) {
    '0' <= c <= '9'
  }

  predicate AllDigits(s: Bytes) {
    forall k :: 0 <= k < |s| ==> IsDigit(s[k])
  }

  /** Reference definition: the input with each whitespace byte deleted and the others kept in order. */
  function DeleteSpaces(s: Bytes): (r: Bytes)
    ensures NoSpace(r)
    ensures |r| <= |s|
    decreases |s|
  {
    if s == [] then []
    else (if IsPcreSpace(s[0]) then [] else [s[0]]) + DeleteSpaces(s[1..])
  }

  /** What one match of `\s+` at the front of `s` consumes: the whole leading run of whitespace. */
  function SkipSpaceRun(s: Bytes): (r: Bytes)
    ensures |r| <= |s| && r == s[|s| - |r|..]
    ensures forall k :: 0 <= k < |s| - |r| ==> IsPcreSpace(s[k])
    ensures r != [] ==> !IsPcreSpace(r[0])
    ensures s != [] && IsPcreSpace(s[0]) ==> |r| < |s|
    decreases |s|
  {
    if s != [] && IsPcreSpace(s[0]) then SkipSpaceRun(s[1..]) else s
  }

  /** `preg_replace('/\s+/', '', $s)`: each leftmost, longest run of whitespace replaced by nothing. */
  function ReplaceSpaceRuns(s: Bytes): (r: Bytes)
    ensures NoSpace(r)
    ensures |r| <= |s|
    decreases |s|
  {
    if s == [] then []
    else if IsPcreSpace(s[0]) then
      ReplaceSpaceRuns(SkipSpaceRun(s))
    else [s[0]] + ReplaceSpaceRuns(s[1..])
  }

  /**
   * `preg_match('/^[0-9]+$/', $s)`: one or more digits to the end, where (no `D`
   * modifier) `$` also matches just before a final "\n". Once whitespace is
   * gone that final "\n" cannot occur, and a match means non-empty digits.
   */
  function MatchesDigitPattern(s: Bytes): (matched: bool)
    ensures matched ==> |s| > 0 && IsDigit(s[0])
    ensures NoSpace(s) ==> (matched <==> |s| > 0 && AllDigits(s))
  {
    (|s| > 0 && AllDigits(s))
    || (|s| > 1 && s[|s| - 1] == '\n' && AllDigits(s[..|s| - 1]))
  }

  datatype Sanitized = Sanitized(phone: Bytes, invalidPhone: bool)

  lemma {:induction false} DeleteLeadingSpaces(s: Bytes, n: nat)
    requires n <= |s|
    requires forall k :: 0 <= k < n ==> IsPcreSpace(s[k])
    ensures DeleteSpaces(s) == DeleteSpaces(s[n..])
    decreases n
  {
    if n > 0 {
      DeleteLeadingSpaces(s[1..], n - 1);
      assert s[1..][n - 1..] == s[n..];
    }
  }

  /** Removing whole runs, as the regular expression does, deletes exactly the whitespace bytes. */
  lemma {:induction false} ReplaceSpaceRunsDeletesSpaces(s: Bytes)
    ensures ReplaceSpaceRuns(s) == DeleteSpaces(s)
    decreases |s|
  {
    if s != [] {
      if IsPcreSpace(s[0]) {
        var rest := SkipSpaceRun(s);
        DeleteLeadingSpaces(s, |s| - |rest|);
        ReplaceSpaceRunsDeletesSpaces(rest);
      } else {
        ReplaceSpaceRunsDeletesSpaces(s[1..]);
      }
    }
  }

  /**
   * `send_whatsapp_sanitize_phone($phone)`: the stripped phone, always, and
   * whether the `invalid_phone` error was raised.
   */
  function Sanitize(input: Bytes): (r: Sanitized)
    ensures r.phone == DeleteSpaces(input)
    ensures r.invalidPhone <==> r.phone == [] || !AllDigits(r.phone)
  {
    var phone := ReplaceSpaceRuns(input);
    ReplaceSpaceRunsDeletesSpaces(input);
    Sanitized(phone, !MatchesDigitPattern(phone))
  }

  /** Deleting whitespace distributes over concatenation, so order is kept. */
  lemma {:induction false} DeleteSpacesAppend(a: Bytes, b: Bytes)
    ensures DeleteSpaces(a + b) == DeleteSpaces(a) + DeleteSpaces(b)
    decreases |a|
  {
    if a != [] {
      assert (a + b)[0] == a[0] && (a + b)[1..] == a[1..] + b;
      DeleteSpacesAppend(a[1..], b);
    } else {
      assert a + b == b;
    }
  }

  /** A string without whitespace is left as it is. */
  lemma {:induction false} DeleteSpacesNoSpace(s: Bytes)
    requires NoSpace(s)
    ensures DeleteSpaces(s) == s
    decreases |s|
  {
    if s != [] {
      assert NoSpace(s[1..]) by {
        forall k | 0 <= k < |s| - 1 ensures !IsPcreSpace(s[1..][k]) { assert s[1..][k] == s[k + 1]; }
      }
      DeleteSpacesNoSpace(s[1..]);
      assert [s[0]] + s[1..] == s;
    }
  }

  /** Every byte that is not whitespace survives the deletion, at its place among the survivors. */
  lemma DeleteSpacesKeeps(s: Bytes, k: nat)
    requires k < |s| && !IsPcreSpace(s[k])
    ensures DeleteSpaces(s) == DeleteSpaces(s[..k]) + [s[k]] + DeleteSpaces(s[k + 1..])
  {
    var a, b := s[..k], s[k + 1..];
    assert s == a + [s[k]] + b;
    DeleteSpacesAppend(a + [s[k]], b);
    DeleteSpacesAppend(a, [s[k]]);
    assert DeleteSpaces([s[k]]) == [s[k]] by { assert [s[k]][1..] == []; }
  }

  lemma SanitizeIdempotent(input: Bytes)
    ensures Sanitize(Sanitize(input).phone) == Sanitize(input)
  {
    DeleteSpacesNoSpace(Sanitize(input).phone);
  }

  /** A non-empty string of digits passes unchanged and raises no error. */
  lemma SanitizeDigits(input: Bytes)
    requires |input| > 0 && AllDigits(input)
    ensures Sanitize(input) == Sanitized(input, false)
  {
    DeleteSpacesNoSpace(input);
  }

  /** Any byte that is neither whitespace nor a digit makes the check fail. */
  lemma SanitizeRejectsNonDigit(input: Bytes, k: nat)
    requires k < |input| && !IsPcreSpace(input[k]) && !IsDigit(input[k])
    ensures Sanitize(input).invalidPhone
  {
    DeleteSpacesKeeps(input, k);
    var r := Sanitize(input).phone;
    assert r[|DeleteSpaces(input[..k])|] == input[k];
  }

  /** Blank input leaves an empty phone and raises the error. */
  lemma SanitizeBlank(input: Bytes)
    requires forall k :: 0 <= k < |input| ==> IsPcreSpace(input[k])
    ensures Sanitize(input) == Sanitized([], true)
  {
    DeleteLeadingSpaces(input, |input|);
  }
}
