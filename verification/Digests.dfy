/** The assumption on digests can be met: some function from seeds to strings is injective. */
module Digests {
  import opened Prelude
  import opened CatalogTypes
  import opened CatalogNormalize

  /** A number, so that what follows can be told from it. */
  function Tag(n: nat): string {
    seq(n, _ => 'a') + "b"
  }

  function Pack(s: string): string {
    Tag(|s|) + s
  }

  function PackOption(o: Option<string>): string {
    if o.Some? then Tag(1) + Pack(o.value) else Tag(0)
  }

  function PackAll(parts: seq<string>): string {
    if parts == [] then Tag(0) else Tag(1) + (Pack(parts[0]) + PackAll(parts[1..]))
  }

  function ChangeRank(k: ChangeKind): nat {
    match k case Create => 0 case Drop => 1 case Rename => 2 case Move => 3 case Alter => 4 case Unknown => 5
  }

  function SeedRank(s: Seed): nat {
    match s
    case ObjectSeed(_, _, _) => 0 case MutationSeed(_, _) => 1 case ForeignKeySeed(_, _) => 2 case ColumnSeed(_, _) => 3
    case ChangeSeed(_, _, _) => 4 case CycleSeed(_) => 5 case DefinitionSeed(_) => 6
  }

  function SeedBody(s: Seed): string {
    match s
    case ObjectSeed(identity, kind, path) => Pack(identity) + (Tag(KindRank(kind)) + (Pack(path) + ""))
    case MutationSeed(base, path) => Pack(base) + (Pack(path) + "")
    case ForeignKeySeed(table, name) => Pack(table) + (Pack(name) + "")
    case ColumnSeed(table, name) => Pack(table) + (Pack(name) + "")
    case ChangeSeed(change, before, after) => Tag(ChangeRank(change)) + (PackOption(before) + (PackOption(after) + ""))
    case CycleSeed(members) => PackAll(members) + ""
    case DefinitionSeed(text) => Pack(text) + ""
  }

  function Spell(s: Seed): string {
    Tag(SeedRank(s)) + SeedBody(s)
  }

  lemma {:induction false} TagSplit(m: nat, x: string, n: nat, y: string)
    requires Tag(m) + x == Tag(n) + y
    ensures m == n && x == y
  {
    var s, t := Tag(m) + x, Tag(n) + y;
    assert s[m] == 'b' && t[n] == 'b';
    assert forall i :: 0 <= i < m ==> s[i] == 'a';
    assert forall i :: 0 <= i < n ==> t[i] == 'a';
    assert s[m + 1..] == x && t[n + 1..] == y;
  }

  lemma {:induction false} PackSplit(a: string, x: string, b: string, y: string)
    requires Pack(a) + x == Pack(b) + y
    ensures a == b && x == y
  {
    assert Pack(a) + x == Tag(|a|) + (a + x) && Pack(b) + y == Tag(|b|) + (b + y);
    TagSplit(|a|, a + x, |b|, b + y);
    assert (a + x)[..|a|] == a && (b + y)[..|b|] == b && (a + x)[|a|..] == x && (b + y)[|b|..] == y;
  }

  lemma {:induction false} PackOptionSplit(a: Option<string>, x: string, b: Option<string>, y: string)
    requires PackOption(a) + x == PackOption(b) + y
    ensures a == b && x == y
  {
    hide Tag, Pack;
    OptionTagged(a, x);
    OptionTagged(b, y);
    var u, v := if a.Some? then Pack(a.value) + x else x, if b.Some? then Pack(b.value) + y else y;
    TagSplit(if a.Some? then 1 else 0, u, if b.Some? then 1 else 0, v);
    if a.Some? {
      PackSplit(a.value, x, b.value, y);
    }
  }

  lemma {:induction false} OptionTagged(a: Option<string>, x: string)
    ensures PackOption(a) + x == if a.Some? then Tag(1) + (Pack(a.value) + x) else Tag(0) + x
  {
    hide Tag, Pack;
  }

  lemma {:induction false} AllTagged(a: seq<string>, x: string)
    ensures PackAll(a) + x == if a == [] then Tag(0) + x else Tag(1) + (Pack(a[0]) + (PackAll(a[1..]) + x))
  {
    hide Tag, Pack;
  }

  lemma {:induction false} PackAllSplit(a: seq<string>, x: string, b: seq<string>, y: string)
    requires PackAll(a) + x == PackAll(b) + y
    ensures a == b && x == y
  {
    hide Tag, Pack, PackAll;
    AllTagged(a, x);
    AllTagged(b, y);
    var u, v := if a == [] then x else Pack(a[0]) + (PackAll(a[1..]) + x), if b == [] then y else Pack(b[0]) + (PackAll(b[1..]) + y);
    TagSplit(if a == [] then 0 else 1, u, if b == [] then 0 else 1, v);
    if a != [] {
      PackSplit(a[0], PackAll(a[1..]) + x, b[0], PackAll(b[1..]) + y);
      PackAllSplit(a[1..], x, b[1..], y);
      assert a == [a[0]] + a[1..] && b == [b[0]] + b[1..];
    }
  }

  lemma {:induction false} ChangeRankInjective(a: ChangeKind, b: ChangeKind)
    ensures ChangeRank(a) == ChangeRank(b) ==> a == b
  {
  }

  lemma {:induction false} TwoPacked(a: string, b: string, c: string, d: string)
    requires Pack(a) + (Pack(b) + "") == Pack(c) + (Pack(d) + "")
    ensures a == c && b == d
  {
    hide Pack;
    PackSplit(a, Pack(b) + "", c, Pack(d) + "");
    PackSplit(b, "", d, "");
  }

  lemma {:induction false} SpellInjective(s: Seed, t: Seed)
    requires Spell(s) == Spell(t)
    ensures s == t
  {
    hide Tag, Pack, PackOption, PackAll, KindRank, ChangeRank;
    TagSplit(SeedRank(s), SeedBody(s), SeedRank(t), SeedBody(t));
    match s {
      case ObjectSeed(i, k, p) =>
        PackSplit(i, Tag(KindRank(k)) + (Pack(p) + ""), t.identity, Tag(KindRank(t.kind)) + (Pack(t.path) + ""));
        TagSplit(KindRank(k), Pack(p) + "", KindRank(t.kind), Pack(t.path) + "");
        KindRankInjective(k, t.kind);
        PackSplit(p, "", t.path, "");
      case MutationSeed(b, p) => TwoPacked(b, p, t.base, t.path);
      case ForeignKeySeed(a, n) => TwoPacked(a, n, t.table, t.name);
      case ColumnSeed(a, n) => TwoPacked(a, n, t.table, t.name);
      case ChangeSeed(c, b, a) =>
        TagSplit(ChangeRank(c), PackOption(b) + (PackOption(a) + ""), ChangeRank(t.change), PackOption(t.before) + (PackOption(t.after) + ""));
        ChangeRankInjective(c, t.change);
        PackOptionSplit(b, PackOption(a) + "", t.before, PackOption(t.after) + "");
        PackOptionSplit(a, "", t.after, "");
      case CycleSeed(m) => PackAllSplit(m, "", t.members, "");
      case DefinitionSeed(x) => PackSplit(x, "", t.text, "");
    }
  }

  /** So there is a digest every result that assumes one applies to. */
  lemma {:induction false} InjectiveDigestExists() returns (h: Digest)
    ensures Injective(h)
  {
    h := (s: Seed) => Spell(s);
    forall a, b | h(a) == h(b) ensures a == b { SpellInjective(a, b); }
  }
}
