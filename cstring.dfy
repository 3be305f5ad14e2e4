/** C strings in character buffers: the text from an index up to the
    first NUL. */
module CString {

  /** Where the first NUL at or after index `i` is (the buffer's length
      when there is none). */
  function NulAt(buf: seq<char>, i: nat): (r: nat)
    requires i <= |buf|
    ensures i <= r <= |buf|
    ensures r < |buf| ==> buf[r] == '\0'
    ensures forall j :: i <= j < r ==> buf[j] != '\0'
    decreases |buf| - i
  {
    if i < |buf| && buf[i] != '\0' then NulAt(buf, i + 1) else i
  }

  /** The C string starting at index `i` of a buffer: the characters up
      to the first NUL. */
  function CStr(buf: seq<char>, i: nat): string
    requires i <= |buf|
  {
    buf[i..NulAt(buf, i)]
  }

  /** A NUL in the buffer ends the C string before the buffer does. */
  lemma NulFound(buf: seq<char>, i: nat)
    requires i <= |buf| && '\0' in buf[i..]
    ensures NulAt(buf, i) < |buf|
  {
    var k :| 0 <= k < |buf[i..]| && buf[i..][k] == '\0';
    assert buf[i + k] == '\0';
  }

  /** The C string from a later index ends at the same NUL. */
  lemma NulAtLater(buf: seq<char>, i: nat, k: nat)
    requires i <= |buf| && i <= k <= NulAt(buf, i)
    ensures NulAt(buf, k) == NulAt(buf, i)
  {
  }

  /** Writing a NUL at `e` ends the C string at `p` there. */
  lemma NulWritten(b0: seq<char>, p: nat, e: nat)
    requires p <= e < |b0|
    requires forall j :: p <= j < e ==> b0[j] != '\0'
    ensures NulAt(b0[e := '\0'], p) == e
  {
    var b1 := b0[e := '\0'];
    assert b1[e] == '\0';
  }

  /** A buffer holding `s` and then a NUL holds the C string `s`. */
  lemma CStrIs(buf: seq<char>, s: string)
    requires |s| < |buf| && buf[..|s|] == s && buf[|s|] == '\0'
    requires forall j :: 0 <= j < |s| ==> s[j] != '\0'
    ensures CStr(buf, 0) == s
  {
  }

  /** The C string in a buffer is the C string in its prefix up to any
      NUL, with that NUL appended. */
  lemma CStrPrefix(buf: seq<char>, k: nat)
    requires k < |buf| && buf[k] == '\0'
    ensures CStr(buf, 0) == CStr(buf[..k] + ['\0'], 0)
  {
    var b2 := buf[..k] + ['\0'];
    var r1, r2 := NulAt(buf, 0), NulAt(b2, 0);
    assert b2[k] == '\0';
    assert r1 <= k && r2 <= k;
    assert forall j :: 0 <= j <= k ==> buf[j] == b2[j];
  }

  /** What `snprintf` leaves in a buffer of `size` characters: the text,
      cut to `size - 1` characters to leave room for the NUL. */
  function Fit(s: string, size: nat): (r: string)
    requires size >= 1
    ensures |r| < size && |r| <= |s| && r == s[..|r|]
    ensures |s| < size ==> r == s
    ensures |s| >= size ==> |r| == size - 1
  {
    if |s| < size then s else s[..size - 1]
  }
}
