/** The functions of Go's strings package that the models use, with their laws. */
module Strings {

  /** The position of the first `sep` in `s`, or |s| if there is none. */
  function Find(s: string, sep: string): (i: nat)
    requires sep != ""
    ensures i <= |s|
    ensures i < |s| ==> i + |sep| <= |s| && s[i..i + |sep|] == sep
  {
    if |s| < |sep| then |s|
    else if s[..|sep|] == sep then 0
    else 1 + Find(s[1..], sep)
  }

  predicate Contains(s: string, sep: string)
    requires sep != ""
  {
    Find(s, sep) < |s|
  }

  function Split(s: string, sep: string): (parts: seq<string>)
    requires sep != ""
    ensures parts != []
    decreases |s|
  {
    var i := Find(s, sep);
    if i == |s| then [s] else [s[..i]] + Split(s[i + |sep|..], sep)
  }

  function Join(parts: seq<string>, sep: string): string {
    if parts == [] then ""
    else if |parts| == 1 then parts[0]
    else parts[0] + sep + Join(parts[1..], sep)
  }

  /** No proper suffix of `sep` is also its prefix, so two occurrences never overlap. */
  ghost predicate BorderFree(sep: string) {
    forall k :: 0 < k < |sep| ==> sep[k..] != sep[..|sep| - k]
  }

  ghost predicate NoneContains(parts: seq<string>, sep: string)
    requires sep != ""
  {
    forall k :: 0 <= k < |parts| ==> !Contains(parts[k], sep)
  }

  predicate OccursAt(s: string, sep: string, i: int) {
    0 <= i <= |s| - |sep| && s[i..i + |sep|] == sep
  }

  lemma {:induction false} FindIsFirst(s: string, sep: string)
    requires sep != ""
    ensures forall i :: i < Find(s, sep) || Find(s, sep) == |s| ==> !OccursAt(s, sep, i)
  {
    if |s| >= |sep| && s[..|sep|] != sep {
      FindIsFirst(s[1..], sep);
      forall i | i < Find(s, sep) || Find(s, sep) == |s| ensures !OccursAt(s, sep, i) {
        assert !OccursAt(s[1..], sep, i - 1);
        if 0 < i <= |s| - |sep| { SubPart(s, 1, |s|, i - 1, i - 1 + |sep|); }
      }
    }
  }

  lemma ContainsIffOccurs(s: string, sep: string)
    requires sep != ""
    ensures Contains(s, sep) <==> exists i :: OccursAt(s, sep, i)
  {
    FindIsFirst(s, sep);
    if Contains(s, sep) { assert OccursAt(s, sep, Find(s, sep)); }
  }

  lemma SubPart(s: string, i: nat, j: nat, a: nat, b: nat)
    requires i <= j <= |s| && a <= b <= j - i
    ensures s[i..j][a..b] == s[i + a..i + b]
  {
    var u, v := s[i..j][a..b], s[i + a..i + b];
    assert forall x :: 0 <= x < b - a ==> u[x] == s[i..j][a + x] && v[x] == s[i + a + x];
  }

  lemma PartContains(s: string, i: nat, j: nat, sep: string)
    requires sep != "" && i <= j <= |s| && !Contains(s, sep)
    ensures !Contains(s[i..j], sep)
  {
    ContainsIffOccurs(s, sep);
    ContainsIffOccurs(s[i..j], sep);
    forall k ensures !OccursAt(s[i..j], sep, k) {
      assert !OccursAt(s, sep, i + k);
      if 0 <= k <= j - i - |sep| { SubPart(s, i, j, k, k + |sep|); }
    }
  }

  /** Behind a part without `sep`, the first `sep` is the one that was put there. */
  lemma FindFirst(p: string, sep: string, rest: string)
    requires sep != "" && BorderFree(sep) && !Contains(p, sep)
    ensures Find(p + sep + rest, sep) == |p| && |p| < |p + sep + rest|
  {
    var s := p + sep + rest;
    var f := Find(s, sep);
    FindIsFirst(s, sep);
    assert f < |s| ==> OccursAt(s, sep, f);
    assert OccursAt(s, sep, |p|);
    forall k | 0 <= k < |p| ensures !OccursAt(s, sep, k) {
      NotBefore(p, sep, rest, k);
    }
  }

  lemma NotBefore(p: string, sep: string, rest: string, k: nat)
    requires sep != "" && BorderFree(sep) && !Contains(p, sep) && k < |p|
    ensures !OccursAt(p + sep + rest, sep, k)
  {
    var s := p + sep + rest;
    var d := |p| - k;
    if |sep| <= d {
      ContainsIffOccurs(p, sep);
      assert !OccursAt(p, sep, k);
      assert s[k..k + |sep|] == p[k..k + |sep|];
    } else {
      var w := s[k..k + |sep|];
      forall i | 0 <= i < |sep| - d ensures w[d..][i] == sep[i] {
        assert w[d..][i] == w[d + i] == s[|p| + i] == (sep + rest)[i];
      }
      assert w[d..] == sep[..|sep| - d];
      assert sep[d..] != sep[..|sep| - d];
    }
  }

  lemma {:induction false} SplitOfJoin(parts: seq<string>, sep: string)
    requires sep != "" && BorderFree(sep) && parts != [] && NoneContains(parts, sep)
    ensures Split(Join(parts, sep), sep) == parts
  {
    if |parts| > 1 {
      var rest := Join(parts[1..], sep);
      FindFirst(parts[0], sep, rest);
      assert NoneContains(parts[1..], sep);
      SplitOfJoin(parts[1..], sep);
      var s := parts[0] + sep + rest;
      assert s[..|parts[0]|] == parts[0] && s[|parts[0]| + |sep|..] == rest;
    }
  }

  lemma {:induction false} JoinOfSplit(s: string, sep: string)
    requires sep != ""
    ensures Join(Split(s, sep), sep) == s
    decreases |s|
  {
    var i := Find(s, sep);
    if i < |s| {
      JoinOfSplit(s[i + |sep|..], sep);
      var parts := [s[..i]] + Split(s[i + |sep|..], sep);
      assert parts[1..] == Split(s[i + |sep|..], sep);
    }
  }

  lemma {:induction false} SplitPartsAreFree(s: string, sep: string)
    requires sep != ""
    ensures NoneContains(Split(s, sep), sep)
    decreases |s|
  {
    var i := Find(s, sep);
    if i < |s| {
      var rest := s[i + |sep|..];
      SplitPartsAreFree(rest, sep);
      BeforeFirst(s, sep);
      var parts := Split(rest, sep);
      assert Split(s, sep) == [s[..i]] + parts;
      forall k | 0 <= k < |parts| + 1 ensures !Contains(([s[..i]] + parts)[k], sep) {
        if k > 0 { assert ([s[..i]] + parts)[k] == parts[k - 1]; }
      }
    }
  }

  lemma {:induction false} BeforeFirst(s: string, sep: string)
    requires sep != ""
    ensures !Contains(s[..Find(s, sep)], sep)
  {
    if |s| >= |sep| && s[..|sep|] != sep {
      BeforeFirst(s[1..], sep);
      var i := Find(s, sep);
      assert s[..i][1..] == s[1..][..i - 1];
      if |sep| <= i { assert s[..i][..|sep|] == s[..|sep|]; }
    } else if |s| < |sep| {
      assert s[..|s|] == s;
    }
  }

  // ----- white space -----

  predicate IsSpace(c: char) {
    c in {'\t', '\n', '\r', ' ', '\U{000B}', '\U{000C}', '\U{0085}', '\U{00A0}', '\U{1680}', '\U{2028}', '\U{2029}',
          '\U{202F}', '\U{205F}', '\U{3000}'} || '\U{2000}' <= c <= '\U{200A}'
  }

  function TrimLeft(s: string): string {
    if s != "" && IsSpace(s[0]) then TrimLeft(s[1..]) else s
  }

  function TrimRight(s: string): string {
    if s != "" && IsSpace(s[|s| - 1]) then TrimRight(s[..|s| - 1]) else s
  }

  function TrimSpace(s: string): string { TrimRight(TrimLeft(s)) }

  predicate Trimmed(s: string) {
    s == "" || (!IsSpace(s[0]) && !IsSpace(s[|s| - 1]))
  }

  lemma {:induction false} TrimLeftIsPart(s: string) returns (i: nat)
    ensures i <= |s| && TrimLeft(s) == s[i..]
    ensures i < |s| ==> !IsSpace(s[i])
  {
    if s != "" && IsSpace(s[0]) {
      var k := TrimLeftIsPart(s[1..]);
      i := k + 1;
    } else {
      i := 0;
    }
  }

  lemma {:induction false} TrimRightIsPart(s: string) returns (j: nat)
    ensures j <= |s| && TrimRight(s) == s[..j]
    ensures j > 0 ==> !IsSpace(s[j - 1])
    ensures forall k :: j <= k < |s| ==> IsSpace(s[k])
  {
    if s != "" && IsSpace(s[|s| - 1]) {
      j := TrimRightIsPart(s[..|s| - 1]);
      assert s[..|s| - 1][..j] == s[..j];
    } else {
      j := |s|;
    }
  }

  /** The white space of Unicode, by code point. */
  lemma SpaceIff(c: char)
    ensures var n := c as int;
            IsSpace(c) <==> 9 <= n <= 13 || 0x2000 <= n <= 0x200A
                            || n in {0x20, 0x85, 0xA0, 0x1680, 0x2028, 0x2029, 0x202F, 0x205F, 0x3000}
  {
    if 9 <= c as int <= 13 { assert c in {'\t', '\n', '\U{000B}', '\U{000C}', '\r'}; }
  }

  lemma {:induction false} TrimLeftTakesSpace(s: string)
    ensures |TrimLeft(s)| <= |s| && s[|s| - |TrimLeft(s)|..] == TrimLeft(s)
    ensures forall k :: 0 <= k < |s| - |TrimLeft(s)| ==> IsSpace(s[k])
  {
    if s != "" && IsSpace(s[0]) { TrimLeftTakesSpace(s[1..]); }
  }

  /** Trimming takes away nothing but white space. */
  lemma TrimSpaceTakesSpace(s: string)
    ensures exists i, j :: 0 <= i <= j <= |s| && TrimSpace(s) == s[i..j]
                           && (forall k :: 0 <= k < i ==> IsSpace(s[k])) && (forall k :: j <= k < |s| ==> IsSpace(s[k]))
  {
    TrimLeftTakesSpace(s);
    var i := |s| - |TrimLeft(s)|;
    var j := TrimRightIsPart(s[i..]);
    assert s[i..][..j] == s[i..i + j];
    assert forall k :: i + j <= k < |s| ==> s[k] == s[i..][k - i];
  }

  /** Trimming gives a part of the string without surrounding white space, and leaves such a string as it is. */
  lemma TrimSpaceLaws(s: string, sep: string)
    requires sep != ""
    ensures Trimmed(TrimSpace(s))
    ensures Trimmed(s) ==> TrimSpace(s) == s
    ensures !Contains(s, sep) ==> !Contains(TrimSpace(s), sep)
  {
    var i := TrimLeftIsPart(s);
    var j := TrimRightIsPart(s[i..]);
    assert s[i..][..j] == s[i..i + j];
    if !Contains(s, sep) { PartContains(s, i, i + j, sep); }
  }
}
