/** The identifier check used before a delete: the case-insensitive regular
    expression `^[\da-f]{8}-([\da-f]{4}-){3}[\da-f]{12}$`, built here from
    its parts and characterised position by position. */
module Uuid {
  import opened Text

  /** `[\da-f]` under the `i` flag. */
  predicate IsHexDigit(c: char) {
    '0' <= c <= '9' || 'a' <= c <= 'f' || 'A' <= c <= 'F'
  }

  predicate AllHex(s: string) {
    forall j | 0 <= j < |s| :: IsHexDigit(s[j])
  }

  /** `s` matches `([\da-f]{4}-){n}`: every fifth character is a dash and
      the others are hex digits. */
  predicate HexGroups(s: string, n: nat)
    ensures HexGroups(s, n) <==>
      |s| == 5 * n && forall j | 0 <= j < |s| :: if j % 5 == 4 then s[j] == '-' else IsHexDigit(s[j])
    decreases n
  {
    if n == 0 then s == []
    else
      |s| >= 5 && AllHex(s[..4]) && s[4] == '-' && HexGroups(s[5..], n - 1)
  }

  /** The positions of the four dashes of the 8-4-4-4-12 layout. */
  predicate IsDashPosition(i: int) {
    i == 8 || i == 13 || i == 18 || i == 23
  }

  /** `isValidUUID(id)`: the regular expression is anchored at both ends, so
      a match is exactly 8 + 1 + 3 * 5 + 12 = 36 characters long. */
  predicate IsValidUuid(id: string)
    ensures IsValidUuid(id) <==>
      |id| == 36 &&
      forall i | 0 <= i < 36 :: if IsDashPosition(i) then id[i] == '-' else IsHexDigit(id[i])
  {
    && |id| == 36
    && AllHex(id[..8]) && id[8] == '-'
    && HexGroups(id[9..24], 3)
    && AllHex(id[24..])
  }

  /** The check ignores letter case: lower-casing an id never changes the
      verdict. */
  lemma IgnoresCase(id: string)
    ensures IsValidUuid(ToLower(id)) == IsValidUuid(id)
  {
    var low := ToLower(id);
    forall i | 0 <= i < |id|
      ensures (low[i] == '-' <==> id[i] == '-') && (IsHexDigit(low[i]) <==> IsHexDigit(id[i]))
    {
      if 'A' <= id[i] <= 'Z' {
        assert low[i] as int == id[i] as int + 32;
      }
    }
    assert |low| == |id|;
    assert IsValidUuid(low) <==>
      (|id| == 36 && forall i | 0 <= i < 36 :: if IsDashPosition(i) then id[i] == '-' else IsHexDigit(id[i]));
  }

  /** The 32 hex digits without their dashes are refused. */
  lemma RejectsMissingDashes()
    ensures !IsValidUuid("123e4567e89b12d3a456426614174000")
  {
  }

  /** A character outside the hex digits is refused. */
  lemma RejectsNonHexDigit()
    ensures !IsValidUuid("123e4567-e89b-12d3-a456-42661417400g")
  {
    assert !IsHexDigit("123e4567-e89b-12d3-a456-42661417400g"[35]);
  }
}
