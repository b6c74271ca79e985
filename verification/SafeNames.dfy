/** The file name parts that packages/core/src/owner-decisions.ts and memory-maturation.ts make of ids and slots. */
module SafeNames {

  function Lower(c: char): char { if 'A' <= c <= 'Z' then (c as int + 32) as char else c }

  predicate IsLetterOrDigit(c: char) { 'a' <= c <= 'z' || '0' <= c <= '9' }

  /** The characters that the names of owner decisions keep. */
  predicate IsSafe(c: char) { IsLetterOrDigit(c) || c in {'_', '.', '-'} }

  /** Lower case, with every run of characters that are not kept replaced by one underscore. */
  function Replaced(s: string, keeps: char -> bool): string {
    if s == [] then []
    else if keeps(Lower(s[0])) then [Lower(s[0])] + Replaced(s[1..], keeps)
    else if |s| > 1 && !keeps(Lower(s[1])) then Replaced(s[1..], keeps)
    else ['_'] + Replaced(s[1..], keeps)
  }

  function TrimLeft(s: string): string { if s != [] && s[0] == '_' then TrimLeft(s[1..]) else s }

  function TrimRight(s: string): string {
    if s != [] && s[|s| - 1] == '_' then TrimRight(s[..|s| - 1]) else s
  }

  /** `safeIdPart` of owner decisions, for ids of ASCII characters. */
  function SafeIdPart(value: string): string {
    var trimmed := TrimRight(TrimLeft(Replaced(value, IsSafe)));
    var cut := if |trimmed| > 96 then trimmed[..96] else trimmed;
    if cut == [] then "owner_decision" else cut
  }

  /**
   `safeIdPart` of memory maturation, for ASCII text; `digest` is the short hash that ends a long name. The blanks that
   the source trims first would become underscores, which are trimmed as well.
   */
  function SafeSlot(value: string, digest: string -> string): string {
    var trimmed := TrimRight(TrimLeft(Replaced(value, IsLetterOrDigit)));
    if trimmed == [] then "claim"
    else if |trimmed| <= 72 then trimmed
    else trimmed[..59] + "_" + digest(trimmed)
  }

  /** Text that is kept as it is comes through unchanged, and what follows is replaced on its own. */
  lemma {:induction false} KeptPart(part: string, rest: string, keeps: char -> bool)
    requires forall c :: c in part ==> keeps(c) && Lower(c) == c
    ensures Replaced(part + rest, keeps) == part + Replaced(rest, keeps)
    decreases |part|
  {
    if part == [] {
      assert part + rest == rest;
    } else {
      KeptPart(part[1..], rest, keeps);
      assert (part + rest)[0] == part[0] && (part + rest)[1..] == part[1..] + rest;
      assert [part[0]] + (part[1..] + Replaced(rest, keeps)) == part + Replaced(rest, keeps);
    }
  }

  /** One character between two kept parts becomes an underscore, whatever it is. */
  lemma JoinedParts(left: string, c: char, right: string, digest: string -> string)
    requires left != [] && right != [] && |left| + |right| < 72 && !IsLetterOrDigit(Lower(c))
    requires forall x :: x in left + right ==> IsLetterOrDigit(x)
    ensures SafeSlot(left + [c] + right, digest) == left + ['_'] + right
  {
    forall x | x in left || x in right ensures IsLetterOrDigit(x) && Lower(x) == x { assert x in left + right; }
    KeptPart(left, [c] + right, IsLetterOrDigit);
    KeptPart(right, [], IsLetterOrDigit);
    var name := left + ['_'] + right;
    assert left + [c] + right == left + ([c] + right) && right + [] == right;
    assert right[0] in left + right && ([c] + right)[1..] == right && ([c] + right)[1] == right[0];
    assert Replaced([c] + right, IsLetterOrDigit) == ['_'] + right;
    assert left + (['_'] + right) == name;
    assert name[0] in left + right && name[|name| - 1] in left + right;
    assert TrimRight(TrimLeft(name)) == name;
  }
}
