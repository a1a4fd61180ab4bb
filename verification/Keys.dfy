/** Declaration keys: digests of length-delimited tuples, made unique inside a file.
    Strings stand for their UTF-8 bytes, so `|part|` is the byte length. */
module Keys {
  import opened Prelude
  import opened Text

  const SCHEME := "axiom-identity-1"
  const OCCURRENCE := "#occurrence"

  /** A 64-bit digest in hex.  Collisions are assumed away. */
  ghost predicate IsDigest(hash: string -> string) {
    && Injective(hash)
    && forall a :: hash(a) != "" && '-' !in hash(a)
  }

  function Part(part: string): string {
    Dec(|part|) + ":" + part
  }

  function Canonical(parts: seq<string>): string
    decreases |parts|, 1
  {
    if parts == [] then "" else Part(parts[0]) + Following(parts[1..])
  }

  function Following(parts: seq<string>): string
    decreases |parts|, 2
  {
    if parts == [] then "" else "|" + Canonical(parts)
  }

  lemma PartIsSelfDelimiting(p: string, s: string, q: string, t: string)
    requires Part(p) + s == Part(q) + t
    ensures p == q && s == t
  {
    assert Part(p) + s == Dec(|p|) + [':'] + (p + s);
    assert Part(q) + t == Dec(|q|) + [':'] + (q + t);
    FirstSplit(Dec(|p|), p + s, Dec(|q|), q + t, ':');
    DecIsInjective(|p|, |q|);
    assert p == (p + s)[..|p|] && q == (q + t)[..|q|];
    assert s == (p + s)[|p|..] && t == (q + t)[|q|..];
  }

  lemma FollowingAgrees(a: seq<string>, b: seq<string>)
    requires Following(a) == Following(b)
    ensures a == [] <==> b == []
    ensures Canonical(a) == Canonical(b)
  {
    if a != [] && b != [] {
      assert Canonical(a) == Following(a)[1..] && Canonical(b) == Following(b)[1..];
    }
  }

  /** No part can be taken for the boundary of its neighbour. */
  lemma {:induction false} CanonicalIsInjective(a: seq<string>, b: seq<string>)
    requires Canonical(a) == Canonical(b)
    ensures a == b
    decreases |a|
  {
    if a != [] && b != [] {
      PartIsSelfDelimiting(a[0], Following(a[1..]), b[0], Following(b[1..]));
      FollowingAgrees(a[1..], b[1..]);
      CanonicalIsInjective(a[1..], b[1..]);
      assert a == [a[0]] + a[1..] && b == [b[0]] + b[1..];
    }
  }

  function DeclarationKey(hash: string -> string, file: string, kind: string, path: seq<string>): string {
    hash(Canonical([SCHEME, file, kind] + path))
  }

  /** A base key identifies its file, its kind and its path, slot by slot. */
  lemma DeclarationKeyIdentifies(
    hash: string -> string, file: string, kind: string, path: seq<string>, file': string, kind': string, path': seq<string>)
    requires IsDigest(hash)
    ensures DeclarationKey(hash, file, kind, path) == DeclarationKey(hash, file', kind', path') <==>
            file == file' && kind == kind' && path == path'
  {
    var a, b := [SCHEME, file, kind] + path, [SCHEME, file', kind'] + path';
    if hash(Canonical(a)) == hash(Canonical(b)) {
      CanonicalIsInjective(a, b);
      assert a[1] == file && a[2] == kind && a[3..] == path && b[1] == file' && b[2] == kind' && b[3..] == path';
    }
  }

  function RepeatedKey(hash: string -> string, base: string, occurrence: nat): string {
    hash(Canonical([SCHEME, base, OCCURRENCE, Dec(occurrence)]))
  }

  function Count(keys: seq<string>, key: string): nat {
    multiset(keys)[key]
  }

  /** The key of one declaration of a file, given the file's base keys in order. */
  function UniqueKey(hash: string -> string, bases: seq<string>, i: nat): string
    requires i < |bases|
  {
    if Count(bases, bases[i]) > 1 then RepeatedKey(hash, bases[i], Count(bases[..i], bases[i])) else bases[i]
  }

  /** The base key is a digest over the file and a real declaration kind. */
  ghost predicate IsBase(hash: string -> string, file: string, base: string) {
    exists kind, path :: kind != OCCURRENCE && base == DeclarationKey(hash, file, kind, path)
  }

  lemma SlotsAgree(hash: string -> string, a: seq<string>, b: seq<string>, i: nat)
    requires IsDigest(hash) && hash(Canonical(a)) == hash(Canonical(b)) && i < |a|
    ensures |a| == |b| && a[i] == b[i]
  {
    CanonicalIsInjective(a, b);
  }

  lemma BasesOfFilesDiffer(hash: string -> string, file: string, base: string, file': string, base': string)
    requires IsDigest(hash) && IsBase(hash, file, base) && IsBase(hash, file', base') && file != file'
    ensures base != base'
  {
    var k, p :| k != OCCURRENCE && base == DeclarationKey(hash, file, k, p);
    var k', p' :| k' != OCCURRENCE && base' == DeclarationKey(hash, file', k', p');
    if base == base' {
      SlotsAgree(hash, [SCHEME, file, k] + p, [SCHEME, file', k'] + p', 1);
    }
  }

  lemma RepeatedIsNoBase(hash: string -> string, file: string, base: string, other: string, n: nat)
    requires IsDigest(hash) && IsBase(hash, file, base)
    ensures base != RepeatedKey(hash, other, n)
  {
    var k, p :| k != OCCURRENCE && base == DeclarationKey(hash, file, k, p);
    if base == RepeatedKey(hash, other, n) {
      SlotsAgree(hash, [SCHEME, file, k] + p, [SCHEME, other, OCCURRENCE, Dec(n)], 2);
    }
  }

  lemma RepeatedIsInjective(hash: string -> string, a: string, m: nat, b: string, n: nat)
    requires IsDigest(hash) && RepeatedKey(hash, a, m) == RepeatedKey(hash, b, n)
    ensures a == b && m == n
  {
    var s, t := [SCHEME, a, OCCURRENCE, Dec(m)], [SCHEME, b, OCCURRENCE, Dec(n)];
    SlotsAgree(hash, s, t, 1);
    SlotsAgree(hash, s, t, 3);
    DecIsInjective(m, n);
  }

  lemma CountGrows(keys: seq<string>, i: nat, j: nat)
    requires i < j < |keys|
    ensures Count(keys[..i], keys[i]) < Count(keys[..j], keys[i])
    ensures Count(keys, keys[i]) >= 1 && (keys[i] == keys[j] ==> Count(keys, keys[i]) >= 2)
  {
    assert keys[..j] == keys[..i] + [keys[i]] + keys[i + 1..j];
    assert keys == keys[..j] + [keys[j]] + keys[j + 1..];
  }

  /** One file's keys are pairwise distinct, whatever repeats in it. */
  lemma KeysOfAFileAreDistinct(hash: string -> string, file: string, bases: seq<string>, i: nat, j: nat)
    requires IsDigest(hash) && forall b <- bases :: IsBase(hash, file, b)
    requires i < j < |bases|
    ensures UniqueKey(hash, bases, i) != UniqueKey(hash, bases, j)
  {
    var a, b := bases[i], bases[j];
    CountGrows(bases, i, j);
    var m, n := Count(bases[..i], a), Count(bases[..j], b);
    RepeatedIsNoBase(hash, file, a, b, n);
    RepeatedIsNoBase(hash, file, b, a, m);
    if RepeatedKey(hash, a, m) == RepeatedKey(hash, b, n) {
      RepeatedIsInjective(hash, a, m, b, n);
    }
  }

  /** Keys of different files are distinct. */
  lemma KeysOfFilesAreApart(
    hash: string -> string, file: string, bases: seq<string>, i: nat, file': string, bases': seq<string>, j: nat)
    requires IsDigest(hash) && file != file' && i < |bases| && j < |bases'|
    requires (forall b <- bases :: IsBase(hash, file, b)) && forall b <- bases' :: IsBase(hash, file', b)
    ensures UniqueKey(hash, bases, i) != UniqueKey(hash, bases', j)
  {
    var a, b := bases[i], bases'[j];
    BasesOfFilesDiffer(hash, file, a, file', b);
    var m, n := Count(bases[..i], a), Count(bases'[..j], b);
    RepeatedIsNoBase(hash, file, a, b, n);
    RepeatedIsNoBase(hash, file', b, a, m);
    if RepeatedKey(hash, a, m) == RepeatedKey(hash, b, n) {
      RepeatedIsInjective(hash, a, m, b, n);
    }
  }
}
