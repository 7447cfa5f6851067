/**
 * The in-memory verification-code store (server/codes.go).
 *
 * The store maps a six-character code to the `CodeInformation` it was issued
 * with.  The random source (`crypto/rand`) and the clock (`time.Now`) are
 * supplied by the caller: a call to `Issue` receives the sequence of random
 * reads its retry loop will see, and the two clock readings it takes.
 */
module Codes {
  import opened Errors

  type byte = x: int | 0 <= x < 256

  /** A clock reading, in nanoseconds. */
  type Time = int

  const Minute: int := 60_000_000_000

  /** Codes record an expiry 15 minutes after issuance; nothing ever checks it. */
  const Lifetime: int := 15 * Minute

  /** `findFreeCode` always asks for codes of this length. */
  const CodeLength: nat := 6

  /** The characters codes are made of: digits and upper-case letters without J, U and W. */
  const Alphabet: string := "0123456789ABCDEFGHIKLMNOPQRSTVXYZ"

  datatype CodeInformation = CodeInformation(code: string, xuid: string, issued: Time, expires: Time)

  /** One call of `rand.Read`: either the buffer was filled, or the read failed. */
  datatype RandomRead = Read(bytes: seq<byte>) | ReadFailed(detail: string)

  const CodeDoesNotExist: ApplicationError := NewApplicationError(40400, "Code doesn't exist")
  const NoCodeForXuid: ApplicationError := NewApplicationError(40400, "There is no code for this XUID")

  function AlreadyIssued(code: string): ApplicationError {
    NewApplicationError(40000, "Code " + code + " is already issued")
  }

  lemma AlphabetShape()
    ensures |Alphabet| == 33
    ensures 'J' !in Alphabet && 'U' !in Alphabet && 'W' !in Alphabet
  {
    forall i | 0 <= i < |Alphabet| ensures Alphabet[i] != 'J' && Alphabet[i] != 'U' && Alphabet[i] != 'W' {
      assert Alphabet[i] < 'J' || 'K' <= Alphabet[i] <= 'T' || Alphabet[i] == 'V' || 'X' <= Alphabet[i];
    }
  }

  /** Every character of the alphabet fits in one byte. */
  lemma AlphabetIsAscii()
    ensures forall i :: 0 <= i < |Alphabet| ==> Alphabet[i] as int < 128
  {
  }

  /** A string `generateCode(6)` can produce. */
  predicate IsCode(s: string) {
    |s| == CodeLength && forall i :: 0 <= i < |s| ==> s[i] in Alphabet
  }

  /** The code `generateCode` makes of the random bytes it read: each byte picks a character, modulo 33. */
  function Render(bytes: seq<byte>): (s: string)
    ensures |s| == |bytes|
    ensures forall i :: 0 <= i < |s| ==> s[i] in Alphabet
  {
    seq(|bytes|, i requires 0 <= i < |bytes| => Alphabet[bytes[i] % |Alphabet|])
  }

  /** Go's string(buffer) for a buffer of ASCII bytes. */
  function BytesToString(buffer: seq<byte>): string {
    seq(|buffer|, i requires 0 <= i < |buffer| => buffer[i] as char)
  }

  /**
   * generateCode: read `length` random bytes and turn each into a character
   * of the alphabet; a failed read is returned as the error.
   */
  method GenerateCode(length: nat, read: RandomRead) returns (r: Result<string>)
    requires read.Read? ==> |read.bytes| == length
    ensures read.ReadFailed? ==> r == Err(Internal(read.detail))
    ensures read.Read? ==> r == Ok(Render(read.bytes))
  {
    var buffer := new byte[length];
    match read {
      case ReadFailed(detail) =>
        return Err(Internal(detail));
      case Read(bytes) =>
        forall i | 0 <= i < length {
          buffer[i] := bytes[i];
        }
    }
    AlphabetIsAscii();
    var otpCharsLength := |Alphabet|;
    for i := 0 to length
      invariant forall j :: 0 <= j < i ==> buffer[j] == Alphabet[read.bytes[j] % otpCharsLength] as int
      invariant forall j :: i <= j < length ==> buffer[j] == read.bytes[j]
    {
      buffer[i] := Alphabet[buffer[i] % otpCharsLength] as int;
    }
    var s := BytesToString(buffer[..]);
    assert s == Render(read.bytes);
    r := Ok(s);
  }

  // ---------------------------------------------------------------------
  // The store's invariant and the specification of its operations
  // ---------------------------------------------------------------------

  /**
   * The invariant `Issue` and `Revoke` keep: every key is a generated code
   * and equals its entry's `Code`, and no two entries share an XUID.
   */
  ghost predicate ValidCodes(codes: map<string, CodeInformation>) {
    && (forall k :: k in codes ==> IsCode(k) && codes[k].code == k)
    && (forall k1, k2 :: k1 in codes && k2 in codes && codes[k1].xuid == codes[k2].xuid ==> k1 == k2)
  }

  ghost predicate HasCodeFor(codes: map<string, CodeInformation>, xuid: string) {
    exists k :: k in codes && codes[k].xuid == xuid
  }

  /** A successful random read of the right size. */
  predicate FilledRead(read: RandomRead) {
    read.Read? && |read.bytes| == CodeLength
  }

  /** A read whose code is not a key of the store. */
  predicate FreeRead(codes: map<string, CodeInformation>, read: RandomRead) {
    FilledRead(read) && Render(read.bytes) !in codes
  }

  /** Draw i is the first that gives a free code, and the reads before it all succeeded. */
  ghost predicate FirstFree(codes: map<string, CodeInformation>, draws: seq<RandomRead>, i: int) {
    && 0 <= i < |draws|
    && FreeRead(codes, draws[i])
    && forall j :: 0 <= j < i ==> FilledRead(draws[j]) && !FreeRead(codes, draws[j])
  }

  /**
   * The retry loop of `findFreeCode` ends: some draw gives a free code and no
   * read before it fails (a failed read panics).
   */
  ghost predicate FindsFree(codes: map<string, CodeInformation>, draws: seq<RandomRead>) {
    exists i :: 0 <= i < |draws| && FreeRead(codes, draws[i]) && forall j :: 0 <= j < i ==> FilledRead(draws[j])
  }

  /**
   * What `Issue(xuid)` does to the map `before`, giving `after` and result `r`.
   * With an entry for `xuid` it fails with 40000 naming that entry's code and
   * changes nothing.  Otherwise it stores one new entry under the first free
   * drawn code, with expiry 15 minutes after the second clock reading, and
   * returns the entry stored under the key `xuid`, if any.
   */
  ghost predicate Issued(before: map<string, CodeInformation>, after: map<string, CodeInformation>,
                         xuid: string, draws: seq<RandomRead>, issuedAt: Time, expiryBase: Time,
                         r: Result<Option<CodeInformation>>)
  {
    if HasCodeFor(before, xuid) then
      && after == before
      && exists k :: k in before && before[k].xuid == xuid && r == Err(App(AlreadyIssued(before[k].code)))
    else
      exists i :: FirstFree(before, draws, i) &&
        var code := Render(draws[i].bytes);
        && after == before[code := CodeInformation(code, xuid, issuedAt, expiryBase + Lifetime)]
        && r == Ok(if xuid in after then Some(after[xuid]) else None)
  }

  /** What `Revoke(code)` does: fail with 40400 if absent, otherwise delete exactly that key. */
  ghost predicate Revoked(before: map<string, CodeInformation>, after: map<string, CodeInformation>,
                          code: string, r: Outcome)
  {
    if code in before then after == before - {code} && r == Pass
    else after == before && r == Fail(App(CodeDoesNotExist))
  }

  // ---------------------------------------------------------------------
  // Lemmas about the specification
  // ---------------------------------------------------------------------

  /** Issue keeps the store's invariant. */
  lemma IssueKeepsValid(before: map<string, CodeInformation>, after: map<string, CodeInformation>,
                        xuid: string, draws: seq<RandomRead>, issuedAt: Time, expiryBase: Time,
                        r: Result<Option<CodeInformation>>)
    requires ValidCodes(before) && Issued(before, after, xuid, draws, issuedAt, expiryBase, r)
    ensures ValidCodes(after)
  {
    if !HasCodeFor(before, xuid) {
      var i :| FirstFree(before, draws, i);
      var code := Render(draws[i].bytes);
      assert after == before[code := CodeInformation(code, xuid, issuedAt, expiryBase + Lifetime)];
    }
  }

  /**
   * A successful Issue adds exactly one entry: a fresh generated code, whose
   * entry names it and the XUID, and leaves every other entry as it was.
   */
  lemma IssueAddsOne(before: map<string, CodeInformation>, after: map<string, CodeInformation>,
                     xuid: string, draws: seq<RandomRead>, issuedAt: Time, expiryBase: Time,
                     r: Result<Option<CodeInformation>>)
    requires Issued(before, after, xuid, draws, issuedAt, expiryBase, r) && r.Ok?
    ensures exists code :: code !in before && IsCode(code) && after.Keys == before.Keys + {code} &&
              after[code].code == code && after[code].xuid == xuid &&
              forall k :: k in before ==> after[k] == before[k]
    ensures |after| == |before| + 1
  {
    var i :| FirstFree(before, draws, i);
    var code := Render(draws[i].bytes);
    assert after.Keys == before.Keys + {code};
  }

  /**
   * The two clock readings are taken one after the other, so the expiry is at
   * least 15 minutes after the recorded issue time.
   */
  lemma IssueExpiry(before: map<string, CodeInformation>, after: map<string, CodeInformation>,
                    xuid: string, draws: seq<RandomRead>, issuedAt: Time, expiryBase: Time,
                    r: Result<Option<CodeInformation>>)
    requires Issued(before, after, xuid, draws, issuedAt, expiryBase, r) && r.Ok?
    requires issuedAt <= expiryBase
    ensures forall k :: k in after && k !in before ==> after[k].expires >= after[k].issued + Lifetime
    ensures forall k :: k in after && k !in before ==> after[k].issued == issuedAt
  {
  }

  /**
   * Issue returns the entry stored under the key `xuid`, not the new one: in
   * a valid store, for every XUID that is not itself a six-character code,
   * a successful Issue returns nil.
   */
  lemma IssueReturnsNil(before: map<string, CodeInformation>, after: map<string, CodeInformation>,
                        xuid: string, draws: seq<RandomRead>, issuedAt: Time, expiryBase: Time,
                        r: Result<Option<CodeInformation>>)
    requires ValidCodes(before) && Issued(before, after, xuid, draws, issuedAt, expiryBase, r)
    requires !IsCode(xuid)
    ensures r.Ok? ==> r.value == None
  {
    if !HasCodeFor(before, xuid) {
      var i :| FirstFree(before, draws, i);
      assert IsCode(Render(draws[i].bytes));
      assert xuid !in after;
    }
  }

  /**
   * Issuing twice for the same XUID: the second call fails with 40000 naming
   * the first code, changes nothing, and the first code is still there.
   */
  lemma IssueTwiceConflicts(c0: map<string, CodeInformation>, c1: map<string, CodeInformation>,
                            c2: map<string, CodeInformation>, xuid: string,
                            draws1: seq<RandomRead>, draws2: seq<RandomRead>, t1: Time, t2: Time, t3: Time, t4: Time,
                            r1: Result<Option<CodeInformation>>, r2: Result<Option<CodeInformation>>)
    requires ValidCodes(c0)
    requires Issued(c0, c1, xuid, draws1, t1, t2, r1) && r1.Ok?
    requires Issued(c1, c2, xuid, draws2, t3, t4, r2)
    ensures c2 == c1
    ensures exists code :: code in c2 && code !in c0 && c2[code].xuid == xuid && r2 == Err(App(AlreadyIssued(code)))
  {
    IssueKeepsValid(c0, c1, xuid, draws1, t1, t2, r1);
    var i :| FirstFree(c0, draws1, i);
    var code := Render(draws1[i].bytes);
    assert c1[code].xuid == xuid;
    assert HasCodeFor(c1, xuid);
    var k :| k in c1 && c1[k].xuid == xuid && r2 == Err(App(AlreadyIssued(c1[k].code)));
    assert k == code;
  }

  /** Revoke keeps the store's invariant. */
  lemma RevokeKeepsValid(before: map<string, CodeInformation>, after: map<string, CodeInformation>,
                         code: string, r: Outcome)
    requires ValidCodes(before) && Revoked(before, after, code, r)
    ensures ValidCodes(after)
  {
  }

  /** A revoked code is gone: revoking it again fails with 40400 and changes nothing. */
  lemma RevokeTwiceFails(c0: map<string, CodeInformation>, c1: map<string, CodeInformation>,
                         c2: map<string, CodeInformation>, code: string, r1: Outcome, r2: Outcome)
    requires Revoked(c0, c1, code, r1) && Revoked(c1, c2, code, r2)
    ensures code !in c1
    ensures r2 == Fail(App(CodeDoesNotExist)) && c2 == c1
  {
  }

  // ---------------------------------------------------------------------
  // The store
  // ---------------------------------------------------------------------

  /** defaultCodeStore */
  class DefaultCodeStore {
    var codes: map<string, CodeInformation>

    ghost predicate Valid()
      reads this
    {
      ValidCodes(codes)
    }

    /** newDefaultCodeStore */
    constructor ()
      ensures codes == map[] && Valid()
    {
      codes := map[];
    }

    /** GetInformation: the entry stored under `code`, or 40400 "Code doesn't exist". */
    function GetInformation(code: string): (r: Result<CodeInformation>)
      reads this
      ensures r.Ok? <==> code in codes
      ensures r.Ok? ==> r.value == codes[code]
      ensures r.Err? ==> r.error == App(CodeDoesNotExist)
    {
      if code in codes then Ok(codes[code]) else Err(App(CodeDoesNotExist))
    }

    /**
     * GetForXuid: a linear scan, in Go's unspecified map order (modelled by
     * picking any key not yet visited), for an entry with this XUID.
     */
    method GetForXuid(xuid: string) returns (r: Result<CodeInformation>)
      ensures r.Ok? <==> HasCodeFor(codes, xuid)
      ensures r.Ok? ==> exists k :: k in codes && codes[k] == r.value && r.value.xuid == xuid
      ensures r.Err? ==> r.error == App(NoCodeForXuid)
    {
      var remaining := codes.Keys;
      while remaining != {}
        invariant remaining <= codes.Keys
        invariant forall k :: k in codes && k !in remaining ==> codes[k].xuid != xuid
        decreases remaining
      {
        var k :| k in remaining;
        if codes[k].xuid == xuid {
          return Ok(codes[k]);
        }
        remaining := remaining - {k};
      }
      return Err(App(NoCodeForXuid));
    }

    /**
     * findFreeCode: draw codes until one is not a key.  The draws are the
     * random reads of successive attempts.
     */
    method FindFreeCode(draws: seq<RandomRead>) returns (code: string)
      requires FindsFree(codes, draws)
      ensures code !in codes && IsCode(code)
      ensures exists i :: FirstFree(codes, draws, i) && code == Render(draws[i].bytes)
    {
      ghost var w :| 0 <= w < |draws| && FreeRead(codes, draws[w]) && forall j :: 0 <= j < w ==> FilledRead(draws[j]);
      var i := 0;
      while true
        invariant 0 <= i <= w
        invariant forall j :: 0 <= j < i ==> FilledRead(draws[j]) && !FreeRead(codes, draws[j])
        decreases w - i
      {
        var generated := GenerateCode(CodeLength, draws[i]);
        var info := GetInformation(generated.value);
        if info.Err? {
          assert FirstFree(codes, draws, i);
          return generated.value;
        }
        i := i + 1;
      }
    }

    /** Issue: at most one code per XUID; see `Issued` for the whole effect. */
    method Issue(xuid: string, draws: seq<RandomRead>, issuedAt: Time, expiryBase: Time)
      returns (r: Result<Option<CodeInformation>>)
      requires Valid()
      requires !HasCodeFor(codes, xuid) ==> FindsFree(codes, draws)
      modifies this
      ensures Valid()
      ensures Issued(old(codes), codes, xuid, draws, issuedAt, expiryBase, r)
    {
      var existing := GetForXuid(xuid);
      if existing.Ok? {
        return Err(App(AlreadyIssued(existing.value.code)));
      }
      var generatedCode := FindFreeCode(draws);
      codes := codes[generatedCode := CodeInformation(generatedCode, xuid, issuedAt, expiryBase + Lifetime)];
      r := Ok(if xuid in codes then Some(codes[xuid]) else None);
      IssueKeepsValid(old(codes), codes, xuid, draws, issuedAt, expiryBase, r);
    }

    /** Revoke: delete a stored code, or fail with 40400 "Code doesn't exist". */
    method Revoke(code: string) returns (r: Outcome)
      requires Valid()
      modifies this
      ensures Valid()
      ensures Revoked(old(codes), codes, code, r)
    {
      var info := GetInformation(code);
      if info.Err? {
        return Fail(App(CodeDoesNotExist));
      }
      codes := codes - {code};
      r := Pass;
    }
  }
}
