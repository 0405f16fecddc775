/** Comparison of deployed bytecode with a reviewed artifact, up to declared immutable ranges. */
module RuntimeBytecode {
  import opened Outcomes
  import opened ExactDecimal
  import opened Collections

  type Byte = b: int | 0 <= b < 256

  datatype Range = Range(start: int, length: int)

  datatype BytecodeError =
    | InvalidHex | DigestMismatch | NoBytecode | LengthMismatch | InvalidRange | ExceedsBytecode | Overlapping | Different

  function End(r: Range): int {
    r.start + r.length
  }

  predicate RangeLe(a: Range, b: Range) {
    a.start < b.start || (a.start == b.start && a.length <= b.length)
  }

  predicate ValidRange(r: Range) {
    SafeInteger(r.start) && SafeInteger(r.length) && r.start >= 0 && r.length >= 1 && SafeInteger(End(r))
  }

  // ----- the range check

  function CheckRange(r: Range, priorEnd: int, size: nat): Result<(), BytecodeError> {
    if !ValidRange(r) then Err(InvalidRange)
    else if End(r) > size then Err(ExceedsBytecode)
    else if r.start < priorEnd then Err(Overlapping)
    else Ok(())
  }

  function ValidateFrom(ranges: seq<Range>, priorEnd: int, size: nat): Result<(), BytecodeError> {
    if ranges == [] then Ok(())
    else var _ :- CheckRange(ranges[0], priorEnd, size); ValidateFrom(ranges[1..], End(ranges[0]), size)
  }

  function Validate(ranges: seq<Range>, size: nat): Result<(), BytecodeError> {
    ValidateFrom(Sort(ranges, RangeLe), -1, size)
  }

  method ValidateByLoop(ranges: seq<Range>, size: nat) returns (r: Result<(), BytecodeError>)
    ensures r == Validate(ranges, size)
  {
    hide CheckRange, Sort;
    var sorted := Sort(ranges, RangeLe);
    var priorEnd := -1;
    for k := 0 to |sorted|
      invariant ValidateFrom(sorted[k..], priorEnd, size) == Validate(ranges, size)
    {
      assert sorted[k..][0] == sorted[k] && sorted[k..][1..] == sorted[k + 1..];
      var _ :- CheckRange(sorted[k], priorEnd, size);
      priorEnd := End(sorted[k]);
    }
    return Ok(());
  }

  ghost predicate Disjoint(a: Range, b: Range) {
    End(a) <= b.start || End(b) <= a.start
  }

  /** Well-formed, in bounds, and pairwise disjoint. */
  ghost predicate Acceptable(ranges: seq<Range>, size: nat) {
    && (forall i :: 0 <= i < |ranges| ==> ValidRange(ranges[i]) && End(ranges[i]) <= size)
    && (forall i, j :: 0 <= i < j < |ranges| ==> Disjoint(ranges[i], ranges[j]))
  }

  lemma RangeOrder()
    ensures TotalPreorder(RangeLe)
  {
  }

  /** For ranges in order, comparing neighbours is enough. */
  lemma {:induction false} SortedValidateIff(ranges: seq<Range>, priorEnd: int, size: nat)
    requires Sorted(ranges, RangeLe)
    ensures ValidateFrom(ranges, priorEnd, size).Ok? <==>
            Acceptable(ranges, size) && forall i :: 0 <= i < |ranges| ==> priorEnd <= ranges[i].start
  {
    hide ValidRange;
    if ranges == [] {
    } else {
      var rest := ranges[1..];
      SortedValidateIff(rest, End(ranges[0]), size);
      assert forall i :: 0 < i < |ranges| ==> ranges[i] == rest[i - 1];
      if ValidateFrom(ranges, priorEnd, size).Ok? {
        HeadThenRest(ranges, priorEnd, size);
      }
      if Acceptable(ranges, size) && forall i :: 0 <= i < |ranges| ==> priorEnd <= ranges[i].start {
        RestThenHead(ranges, priorEnd, size);
      }
    }
  }

  lemma HeadThenRest(ranges: seq<Range>, priorEnd: int, size: nat)
    requires ranges != [] && Sorted(ranges, RangeLe) && CheckRange(ranges[0], priorEnd, size).Ok?
    requires Acceptable(ranges[1..], size) && forall i :: 0 <= i < |ranges[1..]| ==> End(ranges[0]) <= ranges[1..][i].start
    ensures Acceptable(ranges, size) && forall i :: 0 <= i < |ranges| ==> priorEnd <= ranges[i].start
  {
    var rest := ranges[1..];
    assert forall i :: 0 < i < |ranges| ==> ranges[i] == rest[i - 1];
  }

  lemma RestThenHead(ranges: seq<Range>, priorEnd: int, size: nat)
    requires ranges != [] && Sorted(ranges, RangeLe) && Acceptable(ranges, size)
    requires forall i :: 0 <= i < |ranges| ==> priorEnd <= ranges[i].start
    ensures CheckRange(ranges[0], priorEnd, size).Ok? && Acceptable(ranges[1..], size)
    ensures forall i :: 0 <= i < |ranges[1..]| ==> End(ranges[0]) <= ranges[1..][i].start
  {
    var rest := ranges[1..];
    forall i | 0 <= i < |rest|
      ensures End(ranges[0]) <= rest[i].start
    {
      assert rest[i] == ranges[i + 1] && Disjoint(ranges[0], ranges[i + 1]) && RangeLe(ranges[0], ranges[i + 1]);
      assert ValidRange(ranges[i + 1]);
    }
  }

  /** Acceptability does not depend on the order of the ranges. */
  lemma AcceptablePermutes(a: seq<Range>, b: seq<Range>, size: nat)
    requires multiset(a) == multiset(b) && Acceptable(a, size)
    ensures Acceptable(b, size)
  {
    hide SafeInteger;
    assert |a| == |multiset(a)| == |multiset(b)| == |b|;
    assert forall x :: x in b <==> x in multiset(b);
    assert forall x :: x in a <==> x in multiset(a);
    assert Elements(a) == Elements(b);
    ElementsSize(a);
    ElementsSize(b);
    assert Distinct(a);
    forall i | 0 <= i < |b|
      ensures ValidRange(b[i]) && End(b[i]) <= size
    {
      assert b[i] in a;
    }
    forall i, j | 0 <= i < j < |b|
      ensures Disjoint(b[i], b[j])
    {
      assert b[i] in a && b[j] in a && b[i] != b[j];
    }
  }

  /** Although only neighbours in sorted order are compared, the check accepts exactly the pairwise disjoint ranges in bounds. */
  lemma ValidateIff(ranges: seq<Range>, size: nat)
    ensures Validate(ranges, size).Ok? <==> Acceptable(ranges, size)
  {
    hide Sort, ValidateFrom, TotalPreorder, ValidRange;
    var sorted := Sort(ranges, RangeLe);
    RangeOrder();
    SortSorts(ranges, RangeLe);
    SortPermutes(ranges, RangeLe);
    SortedValidateIff(sorted, -1, size);
    if Acceptable(sorted, size) {
      AcceptablePermutes(sorted, ranges, size);
    }
    if Acceptable(ranges, size) {
      AcceptablePermutes(ranges, sorted, size);
      StartsNonNegative(sorted, size);
    }
    if ValidateFrom(sorted, -1, size).Ok? {
      AcceptablePermutes(sorted, ranges, size);
    }
  }

  lemma StartsNonNegative(ranges: seq<Range>, size: nat)
    requires Acceptable(ranges, size)
    ensures forall i :: 0 <= i < |ranges| ==> -1 <= ranges[i].start
  {
  }

  // ----- masking

  predicate Covered(ranges: seq<Range>, i: int) {
    exists k :: 0 <= k < |ranges| && ranges[k].start <= i < End(ranges[k])
  }

  /** The bytes with every covered position set to zero. */
  function Masked(bytes: seq<Byte>, ranges: seq<Range>): (m: seq<Byte>)
    ensures |m| == |bytes|
    ensures forall i :: 0 <= i < |bytes| ==> m[i] == if Covered(ranges, i) then 0 else bytes[i]
  {
    seq(|bytes|, i requires 0 <= i < |bytes| => if Covered(ranges, i) then 0 else bytes[i])
  }

  method Fill(a: array<Byte>, start: nat, end: nat)
    requires start <= end <= a.Length
    modifies a
    ensures a[..] == Masked(old(a[..]), [Range(start, end - start)])
  {
    for i := start to end
      invariant forall k :: 0 <= k < a.Length ==> a[k] == if start <= k < i then 0 else old(a[k])
    {
      a[i] := 0;
    }
    var one := [Range(start, end - start)];
    forall k | 0 <= k < a.Length
      ensures a[k] == if Covered(one, k) then 0 else old(a[k])
    {
      assert one[0].start <= k < End(one[0]) <==> start <= k < end;
    }
  }

  /** `normalizeImmutableReferences`: check the ranges, copy the buffer, fill each range in place. */
  method Normalize(source: seq<Byte>, ranges: seq<Range>) returns (r: Result<seq<Byte>, BytecodeError>)
    ensures r == if Validate(ranges, |source|).Ok? then Ok(Masked(source, ranges)) else Err(Validate(ranges, |source|).error)
  {
    hide Validate, Masked;
    var _ :- ValidateByLoop(ranges, |source|);
    ValidateIff(ranges, |source|);
    var normalized := new Byte[|source|](i requires 0 <= i < |source| => source[i]);
    assert normalized[..] == source;
    MaskNothing(source);
    for k := 0 to |ranges|
      invariant normalized[..] == Masked(source, ranges[..k])
    {
      Fill(normalized, ranges[k].start, End(ranges[k]));
      assert Range(ranges[k].start, End(ranges[k]) - ranges[k].start) == ranges[k];
      assert ranges[..k + 1] == ranges[..k] + [ranges[k]];
      MaskTwice(source, ranges[..k], [ranges[k]]);
    }
    assert ranges[..|ranges|] == ranges;
    return Ok(normalized[..]);
  }

  lemma MaskNothing(bytes: seq<Byte>)
    ensures Masked(bytes, []) == bytes
  {
  }

  lemma CoveredAppend(a: seq<Range>, b: seq<Range>, i: int)
    ensures Covered(a + b, i) <==> Covered(a, i) || Covered(b, i)
  {
    var s := a + b;
    assert forall k :: 0 <= k < |a| ==> s[k] == a[k];
    assert forall k :: 0 <= k < |b| ==> s[|a| + k] == b[k];
    if Covered(s, i) {
      var k :| 0 <= k < |s| && s[k].start <= i < End(s[k]);
      assert k >= |a| ==> b[k - |a|] == s[k];
    }
    if Covered(b, i) {
      var k :| 0 <= k < |b| && b[k].start <= i < End(b[k]);
      assert s[|a| + k].start <= i < End(s[|a| + k]);
    }
  }

  lemma MaskTwice(bytes: seq<Byte>, a: seq<Range>, b: seq<Range>)
    ensures Masked(Masked(bytes, a), b) == Masked(bytes, a + b)
  {
    hide Covered;
    forall i | 0 <= i < |bytes|
      ensures Masked(Masked(bytes, a), b)[i] == Masked(bytes, a + b)[i]
    {
      CoveredAppend(a, b, i);
    }
  }

  /** Masking again changes nothing. */
  lemma MaskIdempotent(bytes: seq<Byte>, ranges: seq<Range>)
    ensures Masked(Masked(bytes, ranges), ranges) == Masked(bytes, ranges)
  {
    hide Covered;
  }

  /** The order in which ranges are listed and filled does not matter. */
  lemma MaskOrderIndependent(bytes: seq<Byte>, a: seq<Range>, b: seq<Range>)
    requires multiset(a) == multiset(b)
    ensures Masked(bytes, a) == Masked(bytes, b)
  {
    forall i | 0 <= i < |bytes|
      ensures Covered(a, i) <==> Covered(b, i)
    {
      CoveredByMember(a, b, i);
      CoveredByMember(b, a, i);
    }
  }

  lemma CoveredByMember(a: seq<Range>, b: seq<Range>, i: int)
    requires multiset(a) == multiset(b)
    ensures Covered(a, i) ==> Covered(b, i)
  {
    if Covered(a, i) {
      var k :| 0 <= k < |a| && a[k].start <= i < End(a[k]);
      assert a[k] in multiset(b);
      var j :| 0 <= j < |b| && b[j] == a[k];
      assert b[j].start <= i < End(b[j]);
    }
  }

  // ----- hexadecimal text

  predicate IsHex(c: char) {
    '0' <= c <= '9' || 'a' <= c <= 'f' || 'A' <= c <= 'F'
  }

  function HexValue(c: char): (v: nat)
    requires IsHex(c)
    ensures v < 16
  {
    if '0' <= c <= '9' then c as int - '0' as int
    else if 'a' <= c <= 'f' then c as int - 'a' as int + 10
    else c as int - 'A' as int + 10
  }

  function HexDigit(v: nat): (c: char)
    requires v < 16
    ensures IsHex(c) && HexValue(c) == v
  {
    if v < 10 then '0' + v as char else 'a' + (v - 10) as char
  }

  function Strip0x(s: string): string {
    if |s| >= 2 && s[0] == '0' && s[1] == 'x' then s[2..] else s
  }

  predicate HexText(s: string) {
    |s| % 2 == 0 && forall i :: 0 <= i < |s| ==> IsHex(s[i])
  }

  function Decode(s: string): seq<Byte>
    requires HexText(s)
  {
    if s == "" then [] else [16 * HexValue(s[0]) + HexValue(s[1])] + Decode(s[2..])
  }

  function Encode(bytes: seq<Byte>): (s: string)
    ensures HexText(s) && |s| == 2 * |bytes|
  {
    if bytes == [] then "" else [HexDigit(bytes[0] / 16), HexDigit(bytes[0] % 16)] + Encode(bytes[1..])
  }

  function Bytes(s: string): Result<seq<Byte>, BytecodeError> {
    if HexText(Strip0x(s)) then Ok(Decode(Strip0x(s))) else Err(InvalidHex)
  }

  lemma {:induction false} DecodeEncode(bytes: seq<Byte>)
    ensures Decode(Encode(bytes)) == bytes
  {
    if bytes == [] {
    } else {
      DecodeEncode(bytes[1..]);
      var b := bytes[0];
      assert 16 * (b / 16) + b % 16 == b;
      assert Encode(bytes)[2..] == Encode(bytes[1..]);
    }
  }

  /** The bytecode text in the verification record reads back as the bytes that were compared. */
  lemma PrintedBytecode(bytes: seq<Byte>)
    ensures Bytes("0x" + Encode(bytes)) == Ok(bytes)
  {
    DecodeEncode(bytes);
    assert ("0x" + Encode(bytes))[2..] == Encode(bytes);
  }

  // ----- the comparison

  datatype Verification = Verification(
    onchainBytecode: string, onchainSha256: string, reviewedSha256: string, normalizedSha256: string, sizeBytes: nat)

  /** `toLowerCase` on the letters a digest may hold. */
  function Lower(s: string): string {
    seq(|s|, i requires 0 <= i < |s| => if 'A' <= s[i] <= 'Z' then (s[i] as int + 32) as char else s[i])
  }

  datatype Binding = Binding(deployedBytecodeSha256: string, ranges: seq<Range>)

  function MaskChecked(bytes: seq<Byte>, ranges: seq<Range>): Result<seq<Byte>, BytecodeError> {
    var _ :- Validate(ranges, |bytes|);
    Ok(Masked(bytes, ranges))
  }

  /** `sha256` is the digest of a byte string, in lower case. */
  function VerifyRuntime(onchain: string, artifact: string, binding: Binding, sha256: seq<Byte> -> string)
    : Result<Verification, BytecodeError>
  {
    hide Validate, Decode, HexText;
    var reviewed :- Bytes(artifact);
    if sha256(reviewed) != Lower(binding.deployedBytecodeSha256) then Err(DigestMismatch)
    else
      var actual :- Bytes(onchain);
      if |actual| == 0 then Err(NoBytecode)
      else if |actual| != |reviewed| then Err(LengthMismatch)
      else
        var a :- MaskChecked(actual, binding.ranges);
        var b := Masked(reviewed, binding.ranges);  // the range check repeats on the same length
        if a != b then Err(Different)
        else Ok(Verification("0x" + Encode(actual), sha256(actual), sha256(reviewed), sha256(a), |actual|))
  }

  method VerifyReviewedRuntimeBytecode(onchain: string, artifact: string, binding: Binding, sha256: seq<Byte> -> string)
    returns (r: Result<Verification, BytecodeError>)
    ensures r == VerifyRuntime(onchain, artifact, binding, sha256)
  {
    hide Validate, Bytes, Masked, Encode;
    var reviewed :- Bytes(artifact);
    if sha256(reviewed) != Lower(binding.deployedBytecodeSha256) {
      return Err(DigestMismatch);
    }
    var actual :- Bytes(onchain);
    if |actual| == 0 {
      return Err(NoBytecode);
    }
    if |actual| != |reviewed| {
      return Err(LengthMismatch);
    }
    var a :- Normalize(actual, binding.ranges);
    var b := Normalize(reviewed, binding.ranges);
    if a != b.value {
      return Err(Different);
    }
    return Ok(Verification("0x" + Encode(actual), sha256(actual), sha256(reviewed), sha256(a), |actual|));
  }

  lemma MaskedEqualIff(a: seq<Byte>, b: seq<Byte>, ranges: seq<Range>)
    requires |a| == |b|
    ensures Masked(a, ranges) == Masked(b, ranges) <==> forall i :: 0 <= i < |a| && !Covered(ranges, i) ==> a[i] == b[i]
  {
    hide Covered;
    var m, n := Masked(a, ranges), Masked(b, ranges);
    if m == n {
      forall i | 0 <= i < |a| && !Covered(ranges, i)
        ensures a[i] == b[i]
      {
        assert m[i] == n[i];
      }
    }
  }

  /**
   * On-chain code is accepted exactly when the artifact is valid hex whose digest matches its binding, the code is non-empty
   * valid hex of the artifact's length, the ranges are disjoint and in bounds, and every byte outside the ranges agrees.
   */
  lemma AcceptedIff(onchain: string, artifact: string, binding: Binding, sha256: seq<Byte> -> string)
    ensures VerifyRuntime(onchain, artifact, binding, sha256).Ok? <==>
            && Bytes(artifact).Ok? && sha256(Bytes(artifact).value) == Lower(binding.deployedBytecodeSha256)
            && Bytes(onchain).Ok? && Bytes(onchain).value != []
            && |Bytes(onchain).value| == |Bytes(artifact).value|
            && Acceptable(binding.ranges, |Bytes(artifact).value|)
            && forall i :: 0 <= i < |Bytes(artifact).value| && !Covered(binding.ranges, i) ==>
                 Bytes(onchain).value[i] == Bytes(artifact).value[i]
  {
    hide Validate, Acceptable, Masked, Covered, Bytes, Encode, Lower;
    if Bytes(artifact).Ok? {
      var reviewed := Bytes(artifact).value;
      ValidateIff(binding.ranges, |reviewed|);
      if Bytes(onchain).Ok? && |Bytes(onchain).value| == |reviewed| {
        MaskedEqualIff(Bytes(onchain).value, reviewed, binding.ranges);
      }
    }
  }

  /**
   * The record of an accepted code: its own text, which reads back as its bytes, its own digest, the reviewed artifact's digest,
   * the digest of its bytes with the ranges zeroed, and its size.
   */
  lemma AcceptedRecord(onchain: string, artifact: string, binding: Binding, sha256: seq<Byte> -> string, zeroed: seq<Byte>)
    requires VerifyRuntime(onchain, artifact, binding, sha256).Ok? && Bytes(onchain).Ok?
    requires |zeroed| == |Bytes(onchain).value|
    requires forall i :: 0 <= i < |zeroed| ==>
               zeroed[i] == if Covered(binding.ranges, i) then 0 else Bytes(onchain).value[i]
    ensures var r, actual := VerifyRuntime(onchain, artifact, binding, sha256).value, Bytes(onchain).value;
            && Bytes(r.onchainBytecode) == Ok(actual) && r.onchainSha256 == sha256(actual)
            && r.reviewedSha256 == Lower(binding.deployedBytecodeSha256)
            && r.normalizedSha256 == sha256(zeroed) && r.sizeBytes == |actual|
  {
    PrintedBytecode(Bytes(onchain).value);
    hide Validate, Covered, Bytes, Encode, Lower;
    assert zeroed == Masked(Bytes(onchain).value, binding.ranges);
  }
}
