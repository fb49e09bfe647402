/** NVIDIA physical-GPU UUIDs (pkg/gpu/contracts.go:14-39). */
module GpuIdentity {

  datatype Option<+T> = None | Some(value: T)

  type Uuid = string

  const UUID_PREFIX := "GPU-"

  predicate IsHyphenPosition(i: int) { i == 12 || i == 17 || i == 22 || i == 27 }

  predicate IsHex(c: char) { '0' <= c <= '9' || 'a' <= c <= 'f' || 'A' <= c <= 'F' }

  /** The regular expression `GPU-8-4-4-4-12` over hexadecimal digits of either case. */
  predicate MatchesUuidPattern(s: string) {
    && |s| == 40
    && s[..4] == UUID_PREFIX
    && forall i :: 4 <= i < 40 ==> if IsHyphenPosition(i) then s[i] == '-' else IsHex(s[i])
  }

  function LowerChar(c: char): char {
    if 'A' <= c <= 'Z' then (c as int + 32) as char else c
  }

  function Lower(s: string): (r: string)
    ensures |r| == |s|
  {
    seq(|s|, i requires 0 <= i < |s| => LowerChar(s[i]))
  }

  /** `ParseUUID`: lower-cases what matches the pattern. */
  function ParseUuid(s: string): Option<Uuid> {
    if MatchesUuidPattern(s) then Some(UUID_PREFIX + Lower(s[4..])) else None
  }

  /** `Validate`: the pattern with every letter in lower case. */
  predicate ValidUuid(u: Uuid) {
    |u| == 40 && forall i :: 0 <= i < 40 ==> CanonicalAt(i, u[i])
  }

  predicate CanonicalAt(i: nat, c: char) {
    if i < 4 then c == "GPU-"[i]
    else if IsHyphenPosition(i) then c == '-'
    else IsHex(c) && LowerChar(c) == c
  }

  /** `Validate` accepts exactly the fixed points of parsing, and parsing always leads to one: a UUID has one
      canonical spelling. */
  lemma ParseUuidCanonicalises(s: string)
    ensures ValidUuid(s) <==> ParseUuid(s) == Some(s)
    ensures ParseUuid(s).Some? ==> ValidUuid(ParseUuid(s).value)
  {
    if MatchesUuidPattern(s) {
      var u := UUID_PREFIX + Lower(s[4..]);
      assert forall i :: 0 <= i < 4 ==> s[i] == s[..4][i];
      assert forall i :: 4 <= i < 40 ==> u[i] == LowerChar(s[i]);
      if ValidUuid(s) {
        assert u == s;
      }
    } else if ValidUuid(s) {
      assert s[..4] == UUID_PREFIX;
      assert forall i :: 4 <= i < 40 ==> CanonicalAt(i, s[i]);
    }
  }

  // ----- the layout, spelt out -----

  /** `n` hexadecimal digits, letters in lower case. */
  predicate IsLowerWord(s: string, n: nat) {
    |s| == n && forall i :: 0 <= i < n ==> '0' <= s[i] <= '9' || 'a' <= s[i] <= 'f'
  }

  /** `n` hexadecimal digits, letters in either case. */
  predicate IsWord(s: string, n: nat) {
    |s| == n && forall i :: 0 <= i < n ==> '0' <= s[i] <= '9' || 'a' <= s[i] <= 'f' || 'A' <= s[i] <= 'F'
  }

  /** `l` is `s` with 'A' to 'F' replaced by 'a' to 'f'. */
  predicate IsLowered(l: string, s: string) {
    |l| == |s| && forall i :: 0 <= i < |s| ==> l[i] as int == s[i] as int + (if 'A' <= s[i] <= 'F' then 32 else 0)
  }

  function Join(a: string, b: string, c: string, d: string, e: string): string {
    "GPU-" + a + "-" + b + "-" + c + "-" + d + "-" + e
  }

  lemma JoinAt(a: string, b: string, c: string, d: string, e: string)
    requires |a| == 8 && |b| == |c| == |d| == 4 && |e| == 12
    ensures var s := Join(a, b, c, d, e);
            && |s| == 40 && s[..4] == "GPU-" && s[4..12] == a && s[12] == '-' && s[13..17] == b && s[17] == '-'
            && s[18..22] == c && s[22] == '-' && s[23..27] == d && s[27] == '-' && s[28..] == e
  {
  }

  lemma JoinOfParts(s: string)
    requires |s| == 40 && s[..4] == "GPU-" && s[12] == s[17] == s[22] == s[27] == '-'
    ensures s == Join(s[4..12], s[13..17], s[18..22], s[23..27], s[28..])
  {
    assert s == s[..4] + s[4..12] + [s[12]] + s[13..17] + [s[17]] + s[18..22] + [s[22]] + s[23..27] + [s[27]] + s[28..];
  }

  /** A UUID is valid exactly if it is "GPU-" and five words of 8, 4, 4, 4 and 12 lower-case hexadecimal digits
      with hyphens between them. */
  lemma ValidUuidExactly(s: string)
    ensures ValidUuid(s) <==>
            exists a, b, c, d, e ::
              && IsLowerWord(a, 8) && IsLowerWord(b, 4) && IsLowerWord(c, 4) && IsLowerWord(d, 4) && IsLowerWord(e, 12)
              && s == Join(a, b, c, d, e)
  {
    if ValidUuid(s) {
      PartsOfValid(s);
    }
    if a, b, c, d, e :|
      && IsLowerWord(a, 8) && IsLowerWord(b, 4) && IsLowerWord(c, 4) && IsLowerWord(d, 4) && IsLowerWord(e, 12)
      && s == Join(a, b, c, d, e)
    {
      JoinIsValid(a, b, c, d, e);
    }
  }

  lemma PartsOfValid(s: string)
    requires ValidUuid(s)
    ensures IsLowerWord(s[4..12], 8) && IsLowerWord(s[13..17], 4) && IsLowerWord(s[18..22], 4)
    ensures IsLowerWord(s[23..27], 4) && IsLowerWord(s[28..], 12)
    ensures s == Join(s[4..12], s[13..17], s[18..22], s[23..27], s[28..])
  {
    assert forall i :: 0 <= i < 40 ==> CanonicalAt(i, s[i]);
    assert s[..4] == "GPU-";
    JoinOfParts(s);
  }

  lemma JoinIsValid(a: string, b: string, c: string, d: string, e: string)
    requires IsLowerWord(a, 8) && IsLowerWord(b, 4) && IsLowerWord(c, 4) && IsLowerWord(d, 4) && IsLowerWord(e, 12)
    ensures ValidUuid(Join(a, b, c, d, e))
  {
    JoinAt(a, b, c, d, e);
    var s := Join(a, b, c, d, e);
    forall i | 0 <= i < 40 ensures CanonicalAt(i, s[i]) {
      if i < 4 {
        assert s[i] == s[..4][i];
      } else if i < 12 {
        assert s[i] == a[i - 4];
      } else if 12 < i < 17 {
        assert s[i] == b[i - 13];
      } else if 17 < i < 22 {
        assert s[i] == c[i - 18];
      } else if 22 < i < 27 {
        assert s[i] == d[i - 23];
      } else if 27 < i {
        assert s[i] == e[i - 28];
      }
    }
  }

  /** Parsing takes exactly the same layout with letters in either case, and changes nothing but their case. */
  lemma ParseUuidExactly(s: string)
    ensures ParseUuid(s).Some? <==>
            exists a, b, c, d, e ::
              && IsWord(a, 8) && IsWord(b, 4) && IsWord(c, 4) && IsWord(d, 4) && IsWord(e, 12)
              && s == Join(a, b, c, d, e)
    ensures ParseUuid(s).Some? ==> |s| == 40 && IsLowered(ParseUuid(s).value[4..], s[4..]) && ParseUuid(s).value[..4] == "GPU-"
  {
    if MatchesUuidPattern(s) {
      PartsOfPattern(s);
      LoweredTail(s);
    }
    if a, b, c, d, e :|
      && IsWord(a, 8) && IsWord(b, 4) && IsWord(c, 4) && IsWord(d, 4) && IsWord(e, 12)
      && s == Join(a, b, c, d, e)
    {
      JoinMatches(a, b, c, d, e);
    }
  }

  lemma LoweredTail(s: string)
    requires MatchesUuidPattern(s)
    ensures ParseUuid(s).value[4..] == Lower(s[4..]) && ParseUuid(s).value[..4] == "GPU-"
    ensures IsLowered(Lower(s[4..]), s[4..])
  {
    var t := s[4..];
    assert forall i :: 0 <= i < |t| ==> t[i] == s[i + 4];
    assert forall i :: 0 <= i < |t| ==> t[i] == '-' || IsHex(t[i]);
  }

  lemma PartsOfPattern(s: string)
    requires MatchesUuidPattern(s)
    ensures IsWord(s[4..12], 8) && IsWord(s[13..17], 4) && IsWord(s[18..22], 4)
    ensures IsWord(s[23..27], 4) && IsWord(s[28..], 12)
    ensures s == Join(s[4..12], s[13..17], s[18..22], s[23..27], s[28..])
  {
    JoinOfParts(s);
  }

  lemma JoinMatches(a: string, b: string, c: string, d: string, e: string)
    requires IsWord(a, 8) && IsWord(b, 4) && IsWord(c, 4) && IsWord(d, 4) && IsWord(e, 12)
    ensures MatchesUuidPattern(Join(a, b, c, d, e))
  {
    JoinAt(a, b, c, d, e);
    var s := Join(a, b, c, d, e);
    forall i | 4 <= i < 40 ensures if IsHyphenPosition(i) then s[i] == '-' else IsHex(s[i]) {
      if i < 12 {
        assert s[i] == a[i - 4];
      } else if 12 < i < 17 {
        assert s[i] == b[i - 13];
      } else if 17 < i < 22 {
        assert s[i] == c[i - 18];
      } else if 22 < i < 27 {
        assert s[i] == d[i - 23];
      } else if 27 < i {
        assert s[i] == e[i - 28];
      }
    }
  }
}
