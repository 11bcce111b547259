/**
 * The few PHP string built-ins the plugin relies on.
 * A PHP string is a sequence of bytes; a byte is written here as a `char`
 * whose code is below 256, so that literals stay readable.
 */
module PhpString {

  type Byte = c: char | c as int < 256 witness '0'
  type Bytes = seq<Byte>

  /**
   * PHP's `empty()` applied to a string: the empty string and the one-byte
   * string "0" are empty, and no longer string is.
   */
  function IsEmpty(s: Bytes): (empty: bool)
    ensures s == [] ==> empty
    ensures |s| == 1 ==> (empty <==> s[0] == '0')
    ensures |s| > 1 ==> !empty
  {
    s == [] || s == "0"
  }

  /** The bytes PHP's `trim` removes by default: " ", "\t", "\n", "\r", "\0" and "\x0B". */
  predicate IsTrimChar(c: Byte) {
    c == ' ' || c == '\t' || c == '\n' || c == '\r' || c == '\0' || c as int == 0x0B
  }

  predicate AllTrimChars(s: Bytes) {
    forall k :: 0 <= k < |s| ==> IsTrimChar(s[k])
  }

  /** `ltrim`: the suffix left after dropping the leading run of trim bytes. */
  function TrimLeft(s: Bytes): (r: Bytes)
    ensures |r| <= |s| && r == s[|s| - |r|..]
    ensures AllTrimChars(s[..|s| - |r|])
    ensures r != [] ==> !IsTrimChar(r[0])
    decreases |s|
  {
    if s != [] && IsTrimChar(s[0]) then TrimLeft(s[1..]) else s
  }

  /** `rtrim`: the prefix left after dropping the trailing run of trim bytes. */
  function TrimRight(s: Bytes): (r: Bytes)
    ensures |r| <= |s| && r == s[..|r|]
    ensures AllTrimChars(s[|r|..])
    ensures r != [] ==> !IsTrimChar(r[|r| - 1])
    decreases |s|
  {
    if s != [] && IsTrimChar(s[|s| - 1]) then TrimRight(s[..|s| - 1]) else s
  }

  /** PHP `trim($s)` with the default character list. */
  function Trim(s: Bytes): (r: Bytes)
    ensures r != [] ==> !IsTrimChar(r[0]) && !IsTrimChar(r[|r| - 1])
    ensures r == [] <==> AllTrimChars(s)
  {
    var l := TrimLeft(s);
    var r := TrimRight(l);
    assert r != [] ==> r[0] == l[0];
    assert r == [] ==> s == s[..|s| - |l|] + l && AllTrimChars(l);
    r
  }

  /** Trim keeps one contiguous slice of its input and drops only trim bytes around it. */
  lemma TrimIsSlice(s: Bytes) returns (i: nat, j: nat)
    ensures i <= j <= |s| && Trim(s) == s[i..j]
    ensures AllTrimChars(s[..i]) && AllTrimChars(s[j..])
  {
    var l := TrimLeft(s);
    var r := TrimRight(l);
    i, j := |s| - |l|, |s| - |l| + |r|;
    assert s[i..] == l;
    assert s[i..j] == l[..|r|];
    assert s[j..] == l[|r|..];
  }

  lemma {:induction false} TrimLeftUnique(s: Bytes, i: nat)
    requires i <= |s| && AllTrimChars(s[..i])
    requires i < |s| ==> !IsTrimChar(s[i])
    ensures TrimLeft(s) == s[i..]
    decreases i
  {
    if i > 0 {
      assert IsTrimChar(s[..i][0]);
      assert s[1..][..i - 1] == s[1..i];
      TrimLeftUnique(s[1..], i - 1);
      assert s[1..][i - 1..] == s[i..];
    }
  }

  lemma {:induction false} TrimRightUnique(s: Bytes, j: nat)
    requires j <= |s| && AllTrimChars(s[j..])
    requires j > 0 ==> !IsTrimChar(s[j - 1])
    ensures TrimRight(s) == s[..j]
    decreases |s| - j
  {
    if j < |s| {
      assert IsTrimChar(s[j..][|s| - 1 - j]);
      var t := s[..|s| - 1];
      assert t[j..] == s[j..|s| - 1];
      TrimRightUnique(t, j);
      assert t[..j] == s[..j];
    }
  }

  /** Trim-only padding around an empty slice makes the whole string trim bytes. */
  lemma AllTrimSplit(s: Bytes, i: nat)
    requires i <= |s| && AllTrimChars(s[..i]) && AllTrimChars(s[i..])
    ensures AllTrimChars(s)
  {
    forall k | 0 <= k < |s| ensures IsTrimChar(s[k]) {
      if k < i { assert s[..i][k] == s[k]; } else { assert s[i..][k - i] == s[k]; }
    }
  }

  /** Dropping the trailing trim bytes of a suffix `s[i..]` leaves `s[i..j]`. */
  lemma TrimRightSlice(s: Bytes, i: nat, j: nat)
    requires i < j <= |s|
    requires AllTrimChars(s[j..]) && !IsTrimChar(s[j - 1])
    ensures TrimRight(s[i..]) == s[i..j]
  {
    var l := s[i..];
    assert l[j - i..] == s[j..] && l[j - i - 1] == s[j - 1];
    TrimRightUnique(l, j - i);
    assert l[..j - i] == s[i..j];
  }

  /** Dropping trim bytes from both ends of a padded slice with non-trim ends leaves that slice. */
  lemma TrimBothUnique(s: Bytes, i: nat, j: nat)
    requires i < j <= |s|
    requires AllTrimChars(s[..i]) && AllTrimChars(s[j..])
    requires !IsTrimChar(s[i]) && !IsTrimChar(s[j - 1])
    ensures TrimRight(TrimLeft(s)) == s[i..j]
  {
    TrimLeftUnique(s, i);
    TrimRightSlice(s, i, j);
  }

  /**
   * The slice that Trim keeps is the only one that is surrounded by trim bytes
   * and neither starts nor ends with one.
   */
  lemma TrimUnique(s: Bytes, i: nat, j: nat)
    requires i <= j <= |s|
    requires AllTrimChars(s[..i]) && AllTrimChars(s[j..])
    requires i < j ==> !IsTrimChar(s[i]) && !IsTrimChar(s[j - 1])
    ensures Trim(s) == s[i..j]
  {
    if i < j {
      TrimBothUnique(s, i, j);
    } else {
      AllTrimSplit(s, i);
    }
  }

  lemma TrimIdempotent(s: Bytes)
    ensures Trim(Trim(s)) == Trim(s)
  {
  }
}
