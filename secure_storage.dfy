/** The DPAPI-backed secret store of the Windows client: a plaintext is
    protected with its terminating NUL, the protected blob is stored as
    Base64 text, and every failure comes back as an empty value.

    DPAPI itself (and the UTF-8 / UTF-16 conversions of the wide-string
    variants) are outside the model: they are the fields of `Dpapi` and
    `Utf8`, and the round-trip properties hold under the hypothesis that
    those oracles round-trip. */
module SecureStorage {
  import Base64
  import opened Wrappers

  type byte = Base64.byte

  /** `CryptProtectData` / `CryptUnprotectData`; `None` is a failed call. */
  datatype Dpapi = Dpapi(protect: seq<byte> -> Option<seq<byte>>,
                         unprotect: seq<byte> -> Option<seq<byte>>)

  /** `WideCharToMultiByte` / `MultiByteToWideChar` with `CP_UTF8`. */
  datatype Utf8 = Utf8(encode: string -> seq<byte>, decode: seq<byte> -> string)

  /** The bytes of a C string: everything before the first NUL. */
  function CString(b: seq<byte>): (r: seq<byte>)
    ensures |r| <= |b| && r == b[..|r|]
    ensures 0 !in r
    ensures |r| < |b| ==> b[|r|] == 0
  {
    if b == [] || b[0] == 0 then [] else [b[0]] + CString(b[1..])
  }

  lemma {:induction false} CStringTerminated(p: seq<byte>)
    requires 0 !in p
    ensures CString(p + [0]) == p
  {
    if p != [] {
      assert (p + [0])[1..] == p[1..] + [0];
      CStringTerminated(p[1..]);
    }
  }

  /** A wide C string: the characters before the first NUL. */
  function WideCString(s: string): (r: string)
    ensures |r| <= |s| && r == s[..|r|]
    ensures '\0' !in r
    ensures |r| < |s| ==> s[|r|] == '\0'
  {
    if s == [] || s[0] == '\0' then [] else [s[0]] + WideCString(s[1..])
  }

  lemma {:induction false} WideCStringTerminated(s: string)
    requires '\0' !in s
    ensures WideCString(s + ['\0']) == s
  {
    if s != [] {
      assert (s + ['\0'])[1..] == s[1..] + ['\0'];
      WideCStringTerminated(s[1..]);
    }
  }

  /** `Encrypt`: empty input, or a failed protection, gives "". */
  function Encrypt(dpapi: Dpapi, plaintext: seq<byte>): (r: string)
  {
    if plaintext == [] then ""
    else match dpapi.protect(plaintext + [0])
      case None => ""
      case Some(blob) => Base64.EncodeSpec(blob)
  }

  /** `Decrypt`: empty input, a payload that decodes to nothing, or a failed
      unprotection gives the empty plaintext. */
  function Decrypt(dpapi: Dpapi, encrypted: string): (r: seq<byte>)
  {
    if encrypted == "" then []
    else
      var blob := Base64.DecodeSpec(encrypted);
      if blob == [] then []
      else match dpapi.unprotect(blob)
        case None => []
        case Some(plain) => CString(plain)
  }

  /** `EncryptW`: the wide plaintext goes through UTF-8; the Base64 text
      comes back unchanged. */
  function EncryptW(dpapi: Dpapi, utf8: Utf8, plaintext: string): (r: string)
  {
    if plaintext == "" then "" else Encrypt(dpapi, utf8.encode(plaintext))
  }

  /** `DecryptW`: an empty decryption stays empty, anything else is read
      back as UTF-8. */
  function DecryptW(dpapi: Dpapi, utf8: Utf8, encrypted: string): (r: string)
  {
    if encrypted == "" then ""
    else
      var plain := Decrypt(dpapi, encrypted);
      if plain == [] then "" else utf8.decode(plain)
  }

  /** DPAPI protects `p` to a non-empty blob that it unprotects back. */
  ghost predicate Protects(dpapi: Dpapi, p: seq<byte>)
  {
    && dpapi.protect(p).Some?
    && dpapi.protect(p).value != []
    && dpapi.unprotect(dpapi.protect(p).value) == Some(p)
  }

  /** The result of `Encrypt` is empty exactly on an empty plaintext or a
      protection that failed (or produced nothing). */
  lemma EncryptEmpty(dpapi: Dpapi, plaintext: seq<byte>)
    ensures Encrypt(dpapi, plaintext) == "" <==>
      (plaintext == [] || dpapi.protect(plaintext + [0]).None?
       || dpapi.protect(plaintext + [0]).value == [])
  {
    if plaintext != [] && dpapi.protect(plaintext + [0]).Some? {
      Base64.EncodeLength(dpapi.protect(plaintext + [0]).value);
    }
  }

  /** What `Encrypt` stores is Base64 text: alphabet characters and '=',
      never a NUL. */
  lemma EncryptNoNul(dpapi: Dpapi, plaintext: seq<byte>)
    ensures '\0' !in Encrypt(dpapi, plaintext)
  {
    if plaintext != [] && dpapi.protect(plaintext + [0]).Some? {
      NoNul(dpapi.protect(plaintext + [0]).value);
    }
  }

  lemma NoNul(d: seq<byte>)
    ensures '\0' !in Base64.EncodeSpec(d)
  {
    var r := Base64.EncodeSpec(d);
    var pad := Base64.Padding(|d|);
    Base64.EncodeShape(d);
    forall i | 0 <= i < |r| ensures r[i] != '\0' {
      if i < |r| - |pad| {
        assert r[..|r| - |pad|][i] == r[i];
      } else {
        assert r[|r| - |pad|..][i - (|r| - |pad|)] == r[i];
      }
    }
  }

  /** Decrypting what was encrypted gives the plaintext back, provided DPAPI
      round-trips and the plaintext holds no NUL (the terminator the C
      string stops at). */
  lemma RoundTrip(dpapi: Dpapi, plaintext: seq<byte>)
    requires 0 !in plaintext
    requires Protects(dpapi, plaintext + [0])
    ensures Decrypt(dpapi, Encrypt(dpapi, plaintext)) == plaintext
  {
    if plaintext != [] {
      var blob := dpapi.protect(plaintext + [0]).value;
      Base64.RoundTrip(blob);
      Base64.EncodeLength(blob);
      CStringTerminated(plaintext);
    }
  }

  /** The wide-string variants round-trip when, in addition, UTF-8 does. */
  lemma RoundTripW(dpapi: Dpapi, utf8: Utf8, plaintext: string)
    requires plaintext != "" ==> utf8.encode(plaintext) != []
    requires utf8.decode(utf8.encode(plaintext)) == plaintext
    requires 0 !in utf8.encode(plaintext)
    requires Protects(dpapi, utf8.encode(plaintext) + [0])
    ensures DecryptW(dpapi, utf8, EncryptW(dpapi, utf8, plaintext)) == plaintext
  {
    if plaintext != "" {
      var p := utf8.encode(plaintext);
      RoundTrip(dpapi, p);
      EncryptEmpty(dpapi, p);
    }
  }

  /** Empty input short-circuits: all four functions answer empty without
      consulting DPAPI or the UTF-8 conversion at all. */
  lemma EmptyShortCircuits(d1: Dpapi, d2: Dpapi, u1: Utf8, u2: Utf8)
    ensures Encrypt(d1, []) == Encrypt(d2, []) == ""
    ensures Decrypt(d1, "") == Decrypt(d2, "") == []
    ensures EncryptW(d1, u1, "") == EncryptW(d2, u2, "") == ""
    ensures DecryptW(d1, u1, "") == DecryptW(d2, u2, "") == ""
  {
  }

  /** `Decrypt` gives the empty plaintext exactly when the input is empty,
      the Base64 payload decodes to nothing, DPAPI refuses the blob, or the
      plaintext it returns starts with a NUL; otherwise it is the returned
      bytes up to their first NUL. */
  lemma DecryptEmpty(dpapi: Dpapi, encrypted: string)
    ensures var blob := Base64.DecodeSpec(encrypted);
            Decrypt(dpapi, encrypted) == [] <==>
              || encrypted == "" || blob == [] || dpapi.unprotect(blob).None?
              || CString(dpapi.unprotect(blob).value) == []
    ensures var blob := Base64.DecodeSpec(encrypted);
            Decrypt(dpapi, encrypted) != [] ==>
              && dpapi.unprotect(blob).Some?
              && Decrypt(dpapi, encrypted) == dpapi.unprotect(blob).value[..|Decrypt(dpapi, encrypted)|]
              && 0 !in Decrypt(dpapi, encrypted)
  {
  }

  // -----------------------------------------------------------------------
  // The registry

  datatype ValueType = RegSz | OtherType

  /** A registry value: its type and its raw data as UTF-16 units. */
  datatype RegValue = RegValue(kind: ValueType, data: string)

  /** What `ReadEncryptedRegistryValue` returns for the registry state:
      a missing key or value, a value that is not `REG_SZ`, or one with no
      data gives ""; otherwise the text up to its NUL is decrypted. */
  function ReadSpec(dpapi: Dpapi, utf8: Utf8, keys: set<string>,
                    values: map<(string, string), RegValue>,
                    subKey: string, name: string): (r: string)
  {
    if subKey !in keys || (subKey, name) !in values then ""
    else
      var v := values[(subKey, name)];
      if v.kind != RegSz || v.data == "" then ""
      else DecryptW(dpapi, utf8, WideCString(v.data))
  }

  /** The registry hive under one root key: the sub-keys that exist and the
      values they hold. */
  class Registry {
    var keys: set<string>
    var values: map<(string, string), RegValue>

    constructor (keys0: set<string>, values0: map<(string, string), RegValue>)
      ensures keys == keys0 && values == values0
    {
      keys := keys0;
      values := values0;
    }

    /** `ReadEncryptedRegistryValue`. */
    method ReadEncryptedValue(dpapi: Dpapi, utf8: Utf8, subKey: string, name: string)
      returns (r: string)
      ensures r == ReadSpec(dpapi, utf8, keys, values, subKey, name)
      ensures subKey !in keys || (subKey, name) !in values ==> r == ""
      ensures (subKey, name) in values && values[(subKey, name)].kind != RegSz ==> r == ""
      ensures (subKey, name) in values && values[(subKey, name)].data == "" ==> r == ""
    {
      if subKey !in keys {
        return "";
      }
      if (subKey, name) !in values {
        return "";
      }
      var v := values[(subKey, name)];
      if v.kind != RegSz || |v.data| == 0 {
        return "";
      }
      var encryptedValue := WideCString(v.data);
      r := DecryptW(dpapi, utf8, encryptedValue);
    }

    /** `WriteEncryptedRegistryValue`. A non-empty plaintext that encrypts
        to nothing is refused before the registry is touched; `canCreate`
        and `canSet` are the outcomes of `RegCreateKeyExW` and
        `RegSetValueExW`. The value is written as `REG_SZ` with its NUL. */
    method WriteEncryptedValue(dpapi: Dpapi, utf8: Utf8, subKey: string, name: string,
                               plaintext: string, canCreate: bool, canSet: bool)
      returns (ok: bool)
      modifies this
      ensures var enc := EncryptW(dpapi, utf8, plaintext);
        ok <==> !(enc == "" && plaintext != "") && canCreate && canSet
      ensures var enc := EncryptW(dpapi, utf8, plaintext);
        if (enc == "" && plaintext != "") || !canCreate then
          keys == old(keys) && values == old(values)
        else
          keys == old(keys) + {subKey}
          && values == (if canSet then old(values)[(subKey, name) := RegValue(RegSz, enc + ['\0'])]
                        else old(values))
    {
      var encrypted := EncryptW(dpapi, utf8, plaintext);
      if encrypted == "" && plaintext != "" {
        return false;
      }
      if !canCreate {
        return false;
      }
      keys := keys + {subKey};
      if canSet {
        values := values[(subKey, name) := RegValue(RegSz, encrypted + ['\0'])];
      }
      ok := canSet;
    }
  }

  /** A value written successfully reads back as the plaintext, under the
      same hypotheses as `RoundTripW`. */
  lemma WriteThenRead(dpapi: Dpapi, utf8: Utf8, keys: set<string>,
                      values: map<(string, string), RegValue>,
                      subKey: string, name: string, plaintext: string)
    requires plaintext != "" ==> utf8.encode(plaintext) != []
    requires utf8.decode(utf8.encode(plaintext)) == plaintext
    requires 0 !in utf8.encode(plaintext)
    requires Protects(dpapi, utf8.encode(plaintext) + [0])
    ensures var enc := EncryptW(dpapi, utf8, plaintext);
      ReadSpec(dpapi, utf8, keys + {subKey},
               values[(subKey, name) := RegValue(RegSz, enc + ['\0'])], subKey, name) == plaintext
  {
    var enc := EncryptW(dpapi, utf8, plaintext);
    if plaintext != "" {
      EncryptNoNul(dpapi, utf8.encode(plaintext));
    }
    WideCStringTerminated(enc);
    RoundTripW(dpapi, utf8, plaintext);
  }
}
