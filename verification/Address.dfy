/**
 Pay-to-pubkey-hash addresses (src/common/address.cpp). The checksum, the first four bytes of a double
 SHA-256 over prefix and payload, is a parameter.
 */
module Address {
  import opened Options
  import opened Sequences
  import opened Base32
  import Blocks = Base32Blocks

  type Checksum = (string, seq<byte>) -> seq<byte>

  ghost predicate FourBytes(chk: Checksum)
  {
    forall hrp, payload :: |chk(hrp, payload)| == 4
  }

  datatype Decoded = Decoded(hrp: string, kind: byte, pubkeyHash: seq<byte>)
  datatype Validation = Invalid(error: string) | Valid(decoded: Decoded, normalized: string)

  predicate KnownPrefix(hrp: string)
  {
    hrp == "sc" || hrp == "tsc"
  }

  function Data(hrp: string, hash: seq<byte>, chk: Checksum): seq<byte>
  {
    [0] + hash + chk(hrp, [0] + hash)
  }

  function Canonical(hrp: string, hash: seq<byte>, chk: Checksum): string
  {
    hrp + "1" + Encoded(Data(hrp, hash, chk))
  }

  /** encode_p2pkh */
  method EncodeP2pkh(hrp: string, hash: seq<byte>, chk: Checksum) returns (r: Option<string>)
    ensures r == if KnownPrefix(hrp) then Some(Canonical(hrp, hash, chk)) else None
  {
    if hrp != "sc" && hrp != "tsc" {
      return None;
    }
    var payload := [0] + hash;
    var data := payload + chk(hrp, payload);
    var text := Base32Encode(data);
    return Some(hrp + "1" + text);
  }

  /** Where the first separator is, or the length when there is none. */
  function Separator(addr: string): (i: nat)
    ensures i <= |addr| && (forall j :: 0 <= j < i ==> addr[j] != '1') && (i < |addr| ==> addr[i] == '1')
  {
    if addr == [] || addr[0] == '1' then 0
    else
      var rest := Separator(addr[1..]);
      assert forall j :: 0 < j < 1 + rest ==> addr[j] == addr[1..][j - 1];
      1 + rest
  }

  /** The outcome, with the first failing check named. */
  function Outcome(addr: string, chk: Checksum): Validation
  {
    var sep := Separator(addr);
    if sep == |addr| then Invalid("missing separator") else
    var hrp, b32 := addr[..sep], addr[sep + 1..];
    if !KnownPrefix(hrp) then Invalid("unsupported hrp")
    else if b32 == "" then Invalid("missing payload")
    else if Base32.Decoded(b32) == None then Invalid("invalid base32")
    else CheckData(hrp, Base32.Decoded(b32).value, chk)
  }

  function CheckData(hrp: string, data: seq<byte>, chk: Checksum): Validation
  {
    if |data| != 25 then Invalid("invalid payload length")
    else if data[21..] != chk(hrp, data[..21]) then Invalid("checksum mismatch")
    else if data[0] != 0 then Invalid("unsupported address type")
    else Valid(Decoded(hrp, 0, data[1..21]), Canonical(hrp, data[1..21], chk))
  }

  method Validate(addr: string, chk: Checksum) returns (r: Validation)
    ensures r == Outcome(addr, chk)
  {
    var sep := Separator(addr);
    if sep == |addr| {
      return Invalid("missing separator");
    }
    var hrp, b32 := addr[..sep], addr[sep + 1..];
    if hrp != "sc" && hrp != "tsc" {
      return Invalid("unsupported hrp");
    }
    if b32 == "" {
      return Invalid("missing payload");
    }
    var data := Base32Decode(b32);
    if data == None {
      return Invalid("invalid base32");
    }
    if |data.value| != 25 {
      return Invalid("invalid payload length");
    }
    var payload := data.value[..21];
    if data.value[21..] != chk(hrp, payload) {
      return Invalid("checksum mismatch");
    }
    if payload[0] != 0 {
      return Invalid("unsupported address type");
    }
    assert payload[1..] == data.value[1..21];
    var normalized := EncodeP2pkh(hrp, payload[1..], chk);
    return Valid(Decoded(hrp, payload[0], payload[1..]), normalized.value);
  }

  // ---------------------------------------------------------------- what is accepted

  lemma SeparatorAfter(hrp: string, rest: string)
    requires KnownPrefix(hrp)
    ensures
      var addr := hrp + "1" + rest;
      Separator(addr) == |hrp| && addr[..|hrp|] == hrp && addr[|hrp| + 1..] == rest
  {
    var addr := hrp + "1" + rest;
    assert addr[|hrp|] == '1' && forall j :: 0 <= j < |hrp| ==> addr[j] == hrp[j] && addr[j] != '1';
  }

  lemma CheckDataExact(hrp: string, data: seq<byte>, hash: seq<byte>, chk: Checksum)
    requires FourBytes(chk) && |hash| == 20
    ensures CheckData(hrp, data, chk) == Valid(Decoded(hrp, 0, hash), Canonical(hrp, hash, chk)) <==>
      data == Data(hrp, hash, chk)
  {
    if data == Data(hrp, hash, chk) {
      assert data[..21] == [0] + hash && data[21..] == chk(hrp, [0] + hash) && data[1..21] == hash;
    }
    if |data| == 25 && data[0] == 0 && data[1..21] == hash {
      assert data[..21] == [0] + hash;
      assert data == data[..21] + data[21..];
    }
  }

  lemma TwentyFive(hrp: string, hash: seq<byte>, chk: Checksum)
    requires FourBytes(chk) && |hash| == 20
    ensures |Data(hrp, hash, chk)| == 25 && RoomForOneMore(25) && |Encoded(Data(hrp, hash, chk))| == 40
  {
  }

  lemma CanonicalIsValid(hrp: string, hash: seq<byte>, chk: Checksum, text: string)
    requires FourBytes(chk) && KnownPrefix(hrp) && |hash| == 20 && text != ""
      && Base32.Decoded(text) == Some(Data(hrp, hash, chk))
    ensures Outcome(hrp + "1" + text, chk) == Valid(Decoded(hrp, 0, hash), Canonical(hrp, hash, chk))
  {
    SeparatorAfter(hrp, text);
    CheckDataExact(hrp, Data(hrp, hash, chk), hash, chk);
  }

  lemma ValidIsCanonical(addr: string, hrp: string, hash: seq<byte>, chk: Checksum)
    requires FourBytes(chk) && KnownPrefix(hrp) && |hash| == 20
    requires Outcome(addr, chk) == Valid(Decoded(hrp, 0, hash), Canonical(hrp, hash, chk))
    ensures exists text :: addr == hrp + "1" + text && Base32.Decoded(text) == Some(Data(hrp, hash, chk))
  {
    var sep := Separator(addr);
    var text := addr[sep + 1..];
    assert addr == hrp + "1" + text;
    CheckDataExact(hrp, Base32.Decoded(text).value, hash, chk);
  }

  lemma BothAccepted(hrp: string, hash: seq<byte>, chk: Checksum, addr: string)
    requires FourBytes(chk) && KnownPrefix(hrp) && |hash| == 20
    requires addr == Canonical(hrp, hash, chk) || addr == Canonical(hrp, hash, chk) + "a"
    ensures Outcome(addr, chk) == Valid(Decoded(hrp, 0, hash), Canonical(hrp, hash, chk))
  {
    var data := Data(hrp, hash, chk);
    var text := if addr == Canonical(hrp, hash, chk) then Encoded(data) else Encoded(data) + "a";
    assert addr == hrp + "1" + text;
    TwentyFive(hrp, hash, chk);
    DecodedExact(text, data);
    CanonicalIsValid(hrp, hash, chk, text);
  }

  lemma NothingElse(hrp: string, hash: seq<byte>, chk: Checksum, addr: string)
    requires FourBytes(chk) && KnownPrefix(hrp) && |hash| == 20
    requires Outcome(addr, chk) == Valid(Decoded(hrp, 0, hash), Canonical(hrp, hash, chk))
    ensures addr == Canonical(hrp, hash, chk) || addr == Canonical(hrp, hash, chk) + "a"
  {
    ValidIsCanonical(addr, hrp, hash, chk);
    var t :| addr == hrp + "1" + t && Base32.Decoded(t) == Some(Data(hrp, hash, chk));
    DecodesToData(hrp, hash, chk, t);
  }

  lemma DecodesToData(hrp: string, hash: seq<byte>, chk: Checksum, t: string)
    requires Base32.Decoded(t) == Some(Data(hrp, hash, chk))
    ensures hrp + "1" + t == Canonical(hrp, hash, chk) || hrp + "1" + t == Canonical(hrp, hash, chk) + "a"
  {
    var text := Encoded(Data(hrp, hash, chk));
    DecodedExact(t, Data(hrp, hash, chk));
    assert hrp + "1" + (text + "a") == hrp + "1" + text + "a";
  }

  /** Accepted with these contents exactly for the canonical text, or that text and one zero letter. */
  lemma ValidExactly(addr: string, hrp: string, hash: seq<byte>, chk: Checksum)
    requires FourBytes(chk) && KnownPrefix(hrp) && |hash| == 20
    ensures Outcome(addr, chk) == Valid(Decoded(hrp, 0, hash), Canonical(hrp, hash, chk)) <==>
      addr == Canonical(hrp, hash, chk) || addr == Canonical(hrp, hash, chk) + "a"
  {
    if addr == Canonical(hrp, hash, chk) || addr == Canonical(hrp, hash, chk) + "a" {
      BothAccepted(hrp, hash, chk, addr);
    }
    if Outcome(addr, chk) == Valid(Decoded(hrp, 0, hash), Canonical(hrp, hash, chk)) {
      NothingElse(hrp, hash, chk, addr);
    }
  }

  /** Whatever is accepted has a known prefix and a 20-byte hash, and its normal form is accepted as itself. */
  lemma NormalForm(addr: string, chk: Checksum)
    requires FourBytes(chk) && Outcome(addr, chk).Valid?
    ensures
      var r := Outcome(addr, chk);
      && KnownPrefix(r.decoded.hrp) && |r.decoded.pubkeyHash| == 20 && r.decoded.kind == 0
      && r.normalized == Canonical(r.decoded.hrp, r.decoded.pubkeyHash, chk)
      && Outcome(r.normalized, chk) == r
  {
    var r := Outcome(addr, chk);
    ValidExactly(r.normalized, r.decoded.hrp, r.decoded.pubkeyHash, chk);
  }

  // ---------------------------------------------------------------- the text and the refusals

  /** The address: prefix, 1, and forty letters, eight for each five of version 0, the hash and the checksum. */
  lemma CanonicalLetters(hrp: string, hash: seq<byte>, chk: Checksum, k: nat)
    requires FourBytes(chk) && |hash| == 20 && k < 5
    ensures
      var s, p, data := Canonical(hrp, hash, chk), |hrp| + 1, [0] + hash + chk(hrp, [0] + hash);
      |s| == p + 40 && s[..p] == hrp + "1" && s[p + 8 * k..p + 8 * k + 8] == Blocks.Letters(data[5 * k..5 * k + 5])
  {
    var p, text := |hrp| + 1, Encoded(Data(hrp, hash, chk));
    TwentyFive(hrp, hash, chk);
    Blocks.BlockAt(Data(hrp, hash, chk), k);
    assert (hrp + "1" + text)[p + 8 * k..p + 8 * k + 8] == text[8 * k..8 * k + 8];
  }

  ghost predicate Starts(addr: string)
  {
    "sc1" <= addr || "tsc1" <= addr
  }

  lemma StartsMeans(addr: string)
    ensures Starts(addr) <==> Separator(addr) < |addr| && KnownPrefix(addr[..Separator(addr)])
    ensures Separator(addr) == |addr| <==> '1' !in addr
  {
    StartsWith(addr, "sc");
    StartsWith(addr, "tsc");
    assert "sc" + "1" == "sc1" && "tsc" + "1" == "tsc1";
  }

  lemma StartsWith(addr: string, hrp: string)
    requires '1' !in hrp
    ensures hrp + "1" <= addr <==> Separator(addr) < |addr| && addr[..Separator(addr)] == hrp
  {
    var i := Separator(addr);
    if hrp + "1" <= addr {
      SeparatorAt(addr, hrp);
    }
    if i < |addr| && addr[..i] == hrp {
      PrefixUpTo(addr, hrp, i);
    }
  }

  lemma PrefixUpTo(addr: string, hrp: string, i: nat)
    requires i < |addr| && addr[..i] == hrp && addr[i] == '1'
    ensures hrp + "1" <= addr
  {
    assert addr[..i + 1] == hrp + "1";
  }

  lemma SeparatorAt(addr: string, hrp: string)
    requires '1' !in hrp && hrp + "1" <= addr
    ensures |hrp| < |addr| && Separator(addr) == |hrp| && addr[..|hrp|] == hrp
  {
    var n := |hrp|;
    assert addr[..n + 1] == hrp + "1" && addr[n] == '1' && addr[..n] == hrp;
    assert forall j :: 0 <= j < n ==> addr[j] == hrp[j] && hrp[j] in hrp;
  }

  /** Which text is refused for what, as long as the letters are not looked at. */
  lemma RefusedFor(addr: string, chk: Checksum)
    ensures Outcome(addr, chk) == Invalid("missing separator") <==> '1' !in addr
    ensures Outcome(addr, chk) == Invalid("unsupported hrp") <==> '1' in addr && !Starts(addr)
    ensures Outcome(addr, chk) == Invalid("missing payload") <==> addr == "sc1" || addr == "tsc1"
  {
    StartsMeans(addr);
    var sep := Separator(addr);
    if sep < |addr| {
      assert addr == addr[..sep] + "1" + addr[sep + 1..];
    }
    if addr == "sc1" {
      SeparatorAfter("sc", "");
    }
    if addr == "tsc1" {
      SeparatorAfter("tsc", "");
    }
  }
}
