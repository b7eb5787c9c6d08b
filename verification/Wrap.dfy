/**
  Wrapping instructions into one `execute` payload. Keys are numbered by their position in the outer
  instruction's own key list; `Unwrapped` proves that decoding the payload and resolving the numbers
  gives back the inner instructions, `Packs` exactly when wrapping is possible.
*/
module Wrap {
  import opened Base

  datatype Meta = Meta(pubkey: Pubkey, isSigner: bool, isWritable: bool)

  datatype Inner = Inner(programId: Pubkey, keys: seq<Meta>, data: Bytes)

  // ---------------------------------------------------------------- the outer key list

  /** One access to the table of metas: an instruction names its program, then each of its keys. */
  datatype Touch = Program(pubkey: Pubkey) | Key(meta: Meta)

  function KeyOf(t: Touch): Pubkey { if t.Program? then t.pubkey else t.meta.pubkey }

  function KeyTouches(keys: seq<Meta>): (r: seq<Touch>)
    ensures |r| == |keys| && forall k :: 0 <= k < |keys| ==> r[k] == Key(keys[k])
  {
    if keys == [] then [] else KeyTouches(keys[..|keys| - 1]) + [Key(keys[|keys| - 1])]
  }

  function Touches(inner: seq<Inner>): seq<Touch> {
    if inner == [] then []
    else
      var n := |inner| - 1;
      Touches(inner[..n]) + [Program(inner[n].programId)] + KeyTouches(inner[n].keys)
  }

  /** The first position with this key. */
  function Find(ms: seq<Meta>, p: Pubkey): (r: Option<nat>)
    ensures r.Some? ==> r.value < |ms| && ms[r.value].pubkey == p && forall k :: 0 <= k < r.value ==> ms[k].pubkey != p
    ensures r.None? ==> forall k :: 0 <= k < |ms| ==> ms[k].pubkey != p
  {
    if ms == [] then None
    else if ms[0].pubkey == p then Some(0)
    else
      var rest := Find(ms[1..], p);
      if rest.None? then None else Some(rest.value + 1)
  }

  /** `Map.set`: a key that is present keeps its place. */
  function Put(ms: seq<Meta>, m: Meta): seq<Meta> {
    var at := Find(ms, m.pubkey);
    if at.Some? then ms[at.value := m] else ms + [m]
  }

  function Flag(ms: seq<Meta>, p: Pubkey): Meta {
    var at := Find(ms, p);
    if at.Some? then ms[at.value] else Meta(p, false, false)
  }

  /** Naming a program resets its entry; naming a key merges its flags, but the account itself never signs. */
  function Touched(ms: seq<Meta>, t: Touch, account: Pubkey): seq<Meta> {
    match t
    case Program(p) => Put(ms, Meta(p, false, false))
    case Key(k) =>
      var cur := Flag(ms, k.pubkey);
      Put(ms, Meta(k.pubkey, k.pubkey != account && (cur.isSigner || k.isSigner), cur.isWritable || k.isWritable))
  }

  function Metas(ts: seq<Touch>, account: Pubkey): seq<Meta> {
    if ts == [] then [] else Touched(Metas(ts[..|ts| - 1], account), ts[|ts| - 1], account)
  }

  function Others(ms: seq<Meta>, account: Pubkey, session: Pubkey): seq<Meta> {
    if ms == [] then []
    else
      var n := |ms| - 1;
      var rest := Others(ms[..n], account, session);
      if ms[n].pubkey == account || ms[n].pubkey == session then rest else rest + [ms[n]]
  }

  function OuterKeys(inner: seq<Inner>, account: Pubkey, session: Pubkey): seq<Meta> {
    [Meta(account, false, true), Meta(session, true, true)] + Others(Metas(Touches(inner), account), account, session)
  }

  // ---------------------------------------------------------------- packing

  const OP_EXECUTE: Byte := 2

  function FlagsOf(k: Meta): Byte { (if k.isSigner then 1 else 0) + (if k.isWritable then 2 else 0) }

  /** A position that fits a byte. */
  function IndexOf(outer: seq<Meta>, p: Pubkey): Option<Byte> {
    var at := Find(outer, p);
    if at.None? || at.value > 0xFF then None else Some(at.value)
  }

  function PackKeys(outer: seq<Meta>, keys: seq<Meta>): Option<Bytes> {
    if keys == [] then Some([])
    else
      var n := |keys| - 1;
      var before :- PackKeys(outer, keys[..n]);
      var i :- IndexOf(outer, keys[n].pubkey);
      Some(before + [i, FlagsOf(keys[n])])
  }

  function PackOne(outer: seq<Meta>, ix: Inner): Option<Bytes> {
    if |ix.keys| > 0xFF then None
    else
      var p :- IndexOf(outer, ix.programId);
      var keys :- PackKeys(outer, ix.keys);
      if |ix.data| > 0xFFFF then None
      else Some([p, |ix.keys|] + keys + [|ix.data| % 256, |ix.data| / 256] + ix.data)
  }

  function PackAll(outer: seq<Meta>, inner: seq<Inner>): Option<Bytes> {
    if inner == [] then Some([])
    else
      var n := |inner| - 1;
      var before :- PackAll(outer, inner[..n]);
      var last :- PackOne(outer, inner[n]);
      Some(before + last)
  }

  function Pack(outer: seq<Meta>, inner: seq<Inner>): Option<Bytes> {
    if |inner| > 0xFF then None
    else
      var body :- PackAll(outer, inner);
      Some([OP_EXECUTE, |inner|] + body)
  }

  // ---------------------------------------------------------------- decoding

  /** A number read past the end is undefined. */
  datatype Account = Account(idx: Option<Byte>, isSigner: bool, isWritable: bool)

  datatype Decoded = Decoded(programIdx: Option<Byte>, accounts: seq<Account>, data: Bytes)

  datatype Reading<T> = Reading(items: T, end: nat)

  function ReadAt(d: Bytes, o: nat): Option<Byte> { if o < |d| then Some(d[o]) else None }

  /** What an undefined number counts as in arithmetic. */
  function Number(b: Option<Byte>): Byte { if b.Some? then b.value else 0 }

  function Slice(d: Bytes, from: nat, to: nat): Bytes {
    var hi := if to < |d| then to else |d|;
    if from <= hi then d[from..hi] else []
  }

  function DecodeAccounts(d: Bytes, o: nat, n: nat): (r: seq<Account>)
    ensures |r| == n
  {
    if n == 0 then []
    else
      var flags := Number(ReadAt(d, o + 2 * (n - 1) + 1));
      DecodeAccounts(d, o, n - 1) + [Account(ReadAt(d, o + 2 * (n - 1)), flags % 2 == 1, flags / 2 % 2 == 1)]
  }

  function DecodeOne(d: Bytes, o: nat): Reading<Decoded> {
    var n := Number(ReadAt(d, o + 1));
    var p := o + 2 + 2 * n;
    var len := Number(ReadAt(d, p)) as int + 256 * Number(ReadAt(d, p + 1)) as int;
    Reading(Decoded(ReadAt(d, o), DecodeAccounts(d, o + 2, n), Slice(d, p + 2, p + 2 + len)), p + 2 + len)
  }

  function DecodeAll(d: Bytes, o: nat, n: nat): Reading<seq<Decoded>> {
    if n == 0 then Reading([], o)
    else
      var before := DecodeAll(d, o, n - 1);
      var last := DecodeOne(d, before.end);
      Reading(before.items + [last.items], last.end)
  }

  function Decode(d: Bytes): Option<seq<Decoded>> {
    if |d| < 2 || d[0] != OP_EXECUTE then None else Some(DecodeAll(d, 2, d[1]).items)
  }

  /** A slice keeps the positions that exist. */
  lemma SliceClamps(d: Bytes, from: nat, to: nat)
    ensures |Slice(d, from, to)| == if from < to && from < |d| then (if to < |d| then to else |d|) - from else 0
    ensures forall k :: from <= k < to && k < |d| ==> Slice(d, from, to)[k - from] == d[k]
  {
  }

  /** Past the end an instruction has no program, no accounts and no data, and takes four bytes that are not there. */
  lemma ReadsPastTheEnd(d: Bytes, o: nat)
    requires |d| <= o
    ensures DecodeOne(d, o) == Reading(Decoded(None, [], []), o + 4)
  {
  }

  // ---------------------------------------------------------------- resolving

  function KeyAt(outer: seq<Meta>, i: Option<Byte>): Option<Pubkey> {
    if i.Some? && i.value < |outer| then Some(outer[i.value].pubkey) else None
  }

  /** The numbers resolve, in order, to these keys with these flags. */
  ghost predicate Resolves(outer: seq<Meta>, d: Decoded, ix: Inner) {
    && KeyAt(outer, d.programIdx) == Some(ix.programId) && d.data == ix.data && |d.accounts| == |ix.keys|
    && forall k :: 0 <= k < |ix.keys| ==> ResolvesKey(outer, d.accounts[k], ix.keys[k])
  }

  ghost predicate ResolvesKey(outer: seq<Meta>, a: Account, m: Meta) {
    KeyAt(outer, a.idx) == Some(m.pubkey) && a.isSigner == m.isSigner && a.isWritable == m.isWritable
  }

  lemma IndexResolves(outer: seq<Meta>, p: Pubkey)
    ensures IndexOf(outer, p).Some? ==> KeyAt(outer, IndexOf(outer, p)) == Some(p)
  {
  }

  lemma {:induction false} PackedKeys(outer: seq<Meta>, keys: seq<Meta>, d: Bytes, o: nat)
    requires PackKeys(outer, keys).Some? && At(d, o, PackKeys(outer, keys).value)
    ensures |PackKeys(outer, keys).value| == 2 * |keys|
    ensures forall k :: 0 <= k < |keys| ==> ResolvesKey(outer, DecodeAccounts(d, o, |keys|)[k], keys[k])
    decreases |keys|
  {
    hide At, IndexOf, KeyAt;
    if keys != [] {
      var n := |keys| - 1;
      var before, i := PackKeys(outer, keys[..n]).value, IndexOf(outer, keys[n].pubkey).value;
      AtConcat(d, o, before, [i, FlagsOf(keys[n])]);
      PackedKeys(outer, keys[..n], d, o);
      TwoAt(d, o + 2 * n, i, FlagsOf(keys[n]));
      IndexResolves(outer, keys[n].pubkey);
    }
  }

  lemma TwoAt(d: Bytes, o: nat, a: Byte, b: Byte)
    requires At(d, o, [a, b])
    ensures ReadAt(d, o) == Some(a) && ReadAt(d, o + 1) == Some(b)
  {
    assert d[o + 0] == [a, b][0] && d[o + 1] == [a, b][1];
  }

  lemma PackedOne(outer: seq<Meta>, ix: Inner, d: Bytes, o: nat)
    requires PackOne(outer, ix).Some? && At(d, o, PackOne(outer, ix).value)
    ensures var r := DecodeOne(d, o); Resolves(outer, r.items, ix) && r.end == o + |PackOne(outer, ix).value|
  {
    hide At, IndexOf, KeyAt, DecodeAccounts, ReadAt, PackKeys, ResolvesKey;
    var p, keys := IndexOf(outer, ix.programId).value, PackKeys(outer, ix.keys).value;
    var head: Bytes := [p, |ix.keys|];
    var size: Bytes := [|ix.data| % 256, |ix.data| / 256];
    assert head + keys + size + ix.data == head + (keys + (size + ix.data));
    AtConcat3(d, o, head, keys, size + ix.data);
    AtConcat(d, o + 2 + |keys|, size, ix.data);
    TwoAt(d, o, p, |ix.keys|);
    PackedKeys(outer, ix.keys, d, o + 2);
    TwoAt(d, o + 2 + |keys|, |ix.data| % 256, |ix.data| / 256);
    IndexResolves(outer, ix.programId);
    AtSlice(d, o + 4 + |keys|, ix.data);
  }

  lemma {:induction false} PackedAll(outer: seq<Meta>, inner: seq<Inner>, d: Bytes, o: nat)
    requires PackAll(outer, inner).Some? && At(d, o, PackAll(outer, inner).value)
    ensures var r := DecodeAll(d, o, |inner|);
            && r.end == o + |PackAll(outer, inner).value| && |r.items| == |inner|
            && forall k :: 0 <= k < |inner| ==> Resolves(outer, r.items[k], inner[k])
    decreases |inner|
  {
    hide At, PackOne, DecodeOne, Resolves;
    if inner != [] {
      var n := |inner| - 1;
      var before, last := PackAll(outer, inner[..n]).value, PackOne(outer, inner[n]).value;
      AtConcat(d, o, before, last);
      PackedAll(outer, inner[..n], d, o);
      PackedOne(outer, inner[n], d, o + |before|);
    }
  }

  /** Decoding what was packed, and resolving it in the outer key list, gives back every inner instruction. */
  lemma Unwrapped(outer: seq<Meta>, inner: seq<Inner>)
    requires Pack(outer, inner).Some?
    ensures var d := Decode(Pack(outer, inner).value);
            && d.Some? && |d.value| == |inner|
            && forall k :: 0 <= k < |inner| ==> Resolves(outer, d.value[k], inner[k])
  {
    hide PackAll, DecodeAll, Resolves, At;
    var d, body := Pack(outer, inner).value, PackAll(outer, inner).value;
    AtSlice(d, 2, body);
    PackedAll(outer, inner, d, 2);
  }

  // ---------------------------------------------------------------- the outer key list is a set of keys

  ghost predicate Distinct(ms: seq<Meta>) { forall j, k :: 0 <= j < k < |ms| ==> ms[j].pubkey != ms[k].pubkey }

  predicate Has(ms: seq<Meta>, p: Pubkey) { Find(ms, p).Some? }

  lemma {:induction false} FindSnoc(ms: seq<Meta>, m: Meta, p: Pubkey)
    ensures Find(ms + [m], p) == if Has(ms, p) then Find(ms, p) else if m.pubkey == p then Some(|ms|) else None
  {
    if ms == [] {
      assert ms + [m] == [m];
    } else {
      assert (ms + [m])[1..] == ms[1..] + [m];
      FindSnoc(ms[1..], m, p);
    }
  }

  lemma FindDistinct(ms: seq<Meta>, k: nat)
    requires Distinct(ms) && k < |ms|
    ensures Find(ms, ms[k].pubkey) == Some(k)
  {
  }

  lemma PutKeeps(ms: seq<Meta>, m: Meta, p: Pubkey)
    requires Distinct(ms)
    ensures Distinct(Put(ms, m)) && Flag(Put(ms, m), p) == if p == m.pubkey then m else Flag(ms, p)
    ensures Has(Put(ms, m), p) <==> Has(ms, p) || p == m.pubkey
  {
    var at, next := Find(ms, m.pubkey), Put(ms, m);
    if at.Some? {
      if Has(ms, p) {
        FindDistinct(next, Find(ms, p).value);
      }
    } else {
      FindSnoc(ms, m, p);
    }
  }

  predicate Named(ts: seq<Touch>, p: Pubkey) { exists k :: 0 <= k < |ts| && KeyOf(ts[k]) == p }

  predicate Writes(t: Touch, p: Pubkey) { t.Key? && t.meta.pubkey == p && t.meta.isWritable }

  predicate Signs(t: Touch, p: Pubkey) { t.Key? && t.meta.pubkey == p && t.meta.isSigner }

  /** Some instruction lists the key as writable, and nothing from there on uses it as a program. */
  ghost predicate LastingWrite(ts: seq<Touch>, p: Pubkey) {
    exists k :: 0 <= k < |ts| && Writes(ts[k], p) && NotProgramAfter(ts, k, p)
  }

  ghost predicate LastingSign(ts: seq<Touch>, p: Pubkey) {
    exists k :: 0 <= k < |ts| && Signs(ts[k], p) && NotProgramAfter(ts, k, p)
  }

  ghost predicate NotProgramAfter(ts: seq<Touch>, k: int, p: Pubkey) {
    forall j :: k <= j < |ts| && 0 <= j ==> ts[j] != Program(p)
  }

  lemma LastingSnoc(ts: seq<Touch>, t: Touch, p: Pubkey)
    ensures LastingWrite(ts + [t], p) <==> Writes(t, p) || (LastingWrite(ts, p) && t != Program(p))
    ensures LastingSign(ts + [t], p) <==> Signs(t, p) || (LastingSign(ts, p) && t != Program(p))
    ensures Named(ts + [t], p) <==> KeyOf(t) == p || Named(ts, p)
  {
    var all := ts + [t];
    assert all[|ts|] == t && forall k :: 0 <= k < |ts| ==> all[k] == ts[k];
    if t != Program(p) {
      forall k | 0 <= k < |ts| ensures NotProgramAfter(all, k, p) <==> NotProgramAfter(ts, k, p) {
        forall j | k <= j < |ts| ensures all[j] == ts[j] {}
      }
    }
    if Writes(t, p) || Signs(t, p) { assert NotProgramAfter(all, |ts|, p); }
    if KeyOf(t) == p { assert KeyOf(all[|ts|]) == p; }
    forall k | 0 <= k < |ts| ensures KeyOf(ts[k]) == KeyOf(all[k]) {}
  }

  /**
    The table holds each named key once. A key is marked writable (or, the account apart, as a signer)
    exactly if it is listed so after the last time it is used as a program.
  */
  lemma {:induction false} MetasMean(ts: seq<Touch>, account: Pubkey, p: Pubkey)
    ensures Distinct(Metas(ts, account))
    ensures Has(Metas(ts, account), p) <==> Named(ts, p)
    ensures Flag(Metas(ts, account), p).isWritable <==> LastingWrite(ts, p)
    ensures Flag(Metas(ts, account), p).isSigner <==> p != account && LastingSign(ts, p)
    decreases |ts|
  {
    hide LastingWrite, LastingSign, Named, Distinct, Put, Find;
    if ts == [] {
      assert Distinct([]) && !Has([], p) && !LastingWrite([], p) && !LastingSign([], p) && !Named([], p) by { Nothing(p); }
      assert Flag([], p) == Meta(p, false, false) by { Nothing(p); }
    } else {
      var n := |ts| - 1;
      assert ts == ts[..n] + [ts[n]];
      MetasMean(ts[..n], account, p);
      LastingSnoc(ts[..n], ts[n], p);
      TouchMeans(Metas(ts[..n], account), ts[n], account, p);
    }
  }

  lemma Nothing(p: Pubkey)
    ensures Distinct([]) && !Has([], p) && !LastingWrite([], p) && !LastingSign([], p) && !Named([], p)
    ensures Flag([], p) == Meta(p, false, false)
  {
  }

  lemma TouchMeans(ms: seq<Meta>, t: Touch, account: Pubkey, p: Pubkey)
    requires Distinct(ms)
    ensures var r := Touched(ms, t, account);
            && Distinct(r) && (Has(r, p) <==> Has(ms, p) || KeyOf(t) == p)
            && (Flag(r, p).isWritable <==> Writes(t, p) || (Flag(ms, p).isWritable && t != Program(p)))
            && (Flag(r, p).isSigner <==>
                  if t.Key? && t.meta.pubkey == p
                  then p != account && (Signs(t, p) || Flag(ms, p).isSigner) else Flag(ms, p).isSigner && t != Program(p))
  {
    hide Find, Put, Distinct;
    match t
    case Program(q) => PutKeeps(ms, Meta(q, false, false), p);
    case Key(k) =>
      var cur := Flag(ms, k.pubkey);
      PutKeeps(ms, Meta(k.pubkey, k.pubkey != account && (cur.isSigner || k.isSigner), cur.isWritable || k.isWritable), p);
  }

  lemma {:induction false} OthersMean(ms: seq<Meta>, account: Pubkey, session: Pubkey, p: Pubkey)
    requires Distinct(ms)
    ensures var r := Others(ms, account, session);
            && Distinct(r) && (Has(r, p) <==> Has(ms, p) && p != account && p != session)
            && (Has(r, p) ==> Flag(r, p) == Flag(ms, p))
            && !Has(r, account) && !Has(r, session)
    decreases |ms|
  {
    hide Find;
    if ms == [] {
      assert Find([], p).None? && Find([], account).None? && Find([], session).None?;
    } else {
      var n := |ms| - 1;
      var rest := Others(ms[..n], account, session);
      assert ms == ms[..n] + [ms[n]];
      OthersMean(ms[..n], account, session, p);
      OthersMean(ms[..n], account, session, ms[n].pubkey);
      FindSnoc(ms[..n], ms[n], p);
      FindSnoc(rest, ms[n], p);
      FindSnoc(rest, ms[n], account);
      FindSnoc(rest, ms[n], session);
    }
  }

  lemma FindOuter(a: Meta, b: Meta, rest: seq<Meta>, p: Pubkey)
    ensures Find([a, b] + rest, p) ==
            if a.pubkey == p then Some(0) else if b.pubkey == p then Some(1)
            else if Has(rest, p) then Some(Find(rest, p).value + 2) else None
  {
    var all := [a, b] + rest;
    var tail := [b] + rest;
    assert all[0] == a && all[1..] == tail && tail[0] == b && tail[1..] == rest;
    assert Find(tail, p) == if b.pubkey == p then Some(0) else if Has(rest, p) then Some(Find(rest, p).value + 1) else None;
  }

  /**
    The outer key list starts with the account and the session and holds every named key exactly once.
    The account never signs and the session always does; for the other keys the flags are those listed
    since the key was last used as a program.
  */
  lemma OuterIsASet(inner: seq<Inner>, account: Pubkey, session: Pubkey, p: Pubkey)
    requires account != session
    ensures var outer := OuterKeys(inner, account, session);
            && Distinct(outer) && outer[0] == Meta(account, false, true) && outer[1] == Meta(session, true, true)
            && (Has(outer, p) <==> p == account || p == session || Named(Touches(inner), p))
            && (p != account && p != session ==>
                  && (Flag(outer, p).isWritable <==> LastingWrite(Touches(inner), p))
                  && (Flag(outer, p).isSigner <==> LastingSign(Touches(inner), p)))
  {
    hide Others, Metas, LastingWrite, LastingSign, Named, Find;
    var ms := Metas(Touches(inner), account);
    var rest := Others(ms, account, session);
    MetasMean(Touches(inner), account, p);
    OthersMean(ms, account, session, p);
    FindOuter(Meta(account, false, true), Meta(session, true, true), rest, p);
    if p != account && p != session && !Has(rest, p) { assert Flag(ms, p) == Meta(p, false, false); }
    OuterDistinct(Meta(account, false, true), Meta(session, true, true), rest);
  }

  lemma OuterDistinct(a: Meta, b: Meta, rest: seq<Meta>)
    requires a.pubkey != b.pubkey && Distinct(rest) && !Has(rest, a.pubkey) && !Has(rest, b.pubkey)
    ensures Distinct([a, b] + rest)
  {
  }

  /** So a key that is writable in one instruction can reach the outer list read-only: a later use as a program resets it. */
  lemma ProgramUseDropsFlags(p: Pubkey, q: Pubkey, account: Pubkey, session: Pubkey)
    requires p != q && p != account && p != session && account != session
    ensures var inner := [Inner(q, [Meta(p, false, true)], []), Inner(p, [], [])];
            !Flag(OuterKeys(inner, account, session), p).isWritable
  {
    hide Find, Metas, Others, OuterKeys;
    var inner := [Inner(q, [Meta(p, false, true)], []), Inner(p, [], [])];
    assert inner[..1] == [inner[0]] && inner[..1][..0] == [];
    var first := Touches(inner[..1]);
    assert Touches(inner) == first + [Program(p)] + [];
    assert first + [Program(p)] + [] == first + [Program(p)];
    LastingSnoc(first, Program(p), p);
    OuterIsASet(inner, account, session, p);
  }

  /** A key that an instruction lists besides naming it as its program keeps the listed flags. */
  lemma ListedProgramKeepsFlags(p: Pubkey, account: Pubkey, session: Pubkey)
    requires p != account && p != session && account != session
    ensures var inner := [Inner(p, [Meta(p, false, true)], [])];
            Flag(OuterKeys(inner, account, session), p) == Meta(p, false, true)
  {
    hide Find, Metas, Others, OuterKeys;
    var inner, key := [Inner(p, [Meta(p, false, true)], [])], Meta(p, false, true);
    assert inner[..0] == [];
    assert KeyTouches([key]) == [Key(key)];
    assert Touches(inner) == [Program(p)] + [Key(key)];
    LastingSnoc([Program(p)], Key(key), p);
    assert [] + [Program(p)] == [Program(p)];
    LastingSnoc([], Program(p), p);
    OuterIsASet(inner, account, session, p);
    FlagIsOf(OuterKeys(inner, account, session), p);
  }

  lemma FlagIsOf(ms: seq<Meta>, p: Pubkey)
    ensures Flag(ms, p).pubkey == p
  {
  }

  function KeysOf(ms: seq<Meta>): seq<Pubkey> {
    if ms == [] then [] else KeysOf(ms[..|ms| - 1]) + [ms[|ms| - 1].pubkey]
  }

  /** The named keys in the order of their first use. */
  function FirstUses(ts: seq<Touch>): seq<Pubkey> {
    if ts == [] then []
    else
      var before, key := FirstUses(ts[..|ts| - 1]), KeyOf(ts[|ts| - 1]);
      if key in before then before else before + [key]
  }

  function Without(keys: seq<Pubkey>, account: Pubkey, session: Pubkey): seq<Pubkey> {
    if keys == [] then []
    else
      var n := |keys| - 1;
      var rest := Without(keys[..n], account, session);
      if keys[n] == account || keys[n] == session then rest else rest + [keys[n]]
  }

  lemma {:induction false} KeysAt(ms: seq<Meta>)
    ensures |KeysOf(ms)| == |ms| && forall k :: 0 <= k < |ms| ==> KeysOf(ms)[k] == ms[k].pubkey
  {
    if ms != [] { KeysAt(ms[..|ms| - 1]); }
  }

  lemma PutKeys(ms: seq<Meta>, m: Meta)
    ensures KeysOf(Put(ms, m)) == if m.pubkey in KeysOf(ms) then KeysOf(ms) else KeysOf(ms) + [m.pubkey]
  {
    KeysAt(ms);
    KeysAt(Put(ms, m));
    var at := Find(ms, m.pubkey);
    if at.Some? { assert KeysOf(ms)[at.value] == m.pubkey; }
  }

  lemma {:induction false} MetasInOrder(ts: seq<Touch>, account: Pubkey)
    ensures KeysOf(Metas(ts, account)) == FirstUses(ts)
    decreases |ts|
  {
    hide Put, Flag;
    if ts != [] {
      var before, t := Metas(ts[..|ts| - 1], account), ts[|ts| - 1];
      MetasInOrder(ts[..|ts| - 1], account);
      match t
      case Program(p) => PutKeys(before, Meta(p, false, false));
      case Key(k) =>
        var cur := Flag(before, k.pubkey);
        PutKeys(before, Meta(k.pubkey, k.pubkey != account && (cur.isSigner || k.isSigner), cur.isWritable || k.isWritable));
    }
  }

  lemma KeysSnoc(ms: seq<Meta>, m: Meta)
    ensures KeysOf(ms + [m]) == KeysOf(ms) + [m.pubkey]
  {
    assert (ms + [m])[..|ms|] == ms;
  }

  lemma WithoutSnoc(keys: seq<Pubkey>, key: Pubkey, account: Pubkey, session: Pubkey)
    ensures Without(keys + [key], account, session)
         == Without(keys, account, session) + if key == account || key == session then [] else [key]
  {
    assert (keys + [key])[..|keys|] == keys;
  }

  lemma {:induction false} OthersInOrder(ms: seq<Meta>, account: Pubkey, session: Pubkey)
    ensures KeysOf(Others(ms, account, session)) == Without(KeysOf(ms), account, session)
  {
    hide KeysOf, Without;
    if ms == [] {
      NoneKept(account, session);
    } else {
      var n := |ms| - 1;
      var rest := Others(ms[..n], account, session);
      OthersInOrder(ms[..n], account, session);
      assert ms == ms[..n] + [ms[n]];
      KeysSnoc(ms[..n], ms[n]);
      WithoutSnoc(KeysOf(ms[..n]), ms[n].pubkey, account, session);
      KeysSnoc(rest, ms[n]);
      assert KeysOf(rest) + [] == KeysOf(rest);
    }
  }

  lemma NoneKept(account: Pubkey, session: Pubkey)
    ensures KeysOf([]) == [] && Without([], account, session) == []
  {
  }

  lemma KeysAfterTwo(a: Meta, b: Meta, rest: seq<Meta>)
    ensures KeysOf([a, b] + rest) == [a.pubkey, b.pubkey] + KeysOf(rest)
  {
    hide KeysOf;
    var all := [a, b] + rest;
    KeysAt(rest);
    KeysAt(all);
    assert all[0] == a && all[1] == b;
    forall k | 0 <= k < |rest| ensures KeysOf(all)[k + 2] == KeysOf(rest)[k] { assert all[k + 2] == rest[k]; }
  }

  /** The outer keys are the account, the session, and the other named keys in the order of their first use. */
  lemma OuterInOrder(inner: seq<Inner>, account: Pubkey, session: Pubkey)
    ensures KeysOf(OuterKeys(inner, account, session)) == [account, session] + Without(FirstUses(Touches(inner)), account, session)
  {
    hide Others, Metas, FirstUses, Without, Touches, KeysOf;
    var ms := Metas(Touches(inner), account);
    MetasInOrder(Touches(inner), account);
    OthersInOrder(ms, account, session);
    KeysAfterTwo(Meta(account, false, true), Meta(session, true, true), Others(ms, account, session));
  }

  lemma OneBody(outer: seq<Meta>, ix: Inner, k: Meta)
    requires ix.keys == [k] && IndexOf(outer, ix.programId).Some? && IndexOf(outer, k.pubkey).Some? && |ix.data| <= 0xFFFF
    ensures PackOne(outer, ix)
         == Some([IndexOf(outer, ix.programId).value, 1, IndexOf(outer, k.pubkey).value,
                  if k.isSigner then (if k.isWritable then 3 else 1) else (if k.isWritable then 2 else 0),
                  |ix.data| % 256, |ix.data| / 256] + ix.data)
  {
    hide IndexOf;
    assert ix.keys[..0] == [];
    var p, i, f := IndexOf(outer, ix.programId).value, IndexOf(outer, k.pubkey).value, FlagsOf(k);
    var lo: Byte, hi: Byte := |ix.data| % 256, |ix.data| / 256;
    assert PackKeys(outer, []) == Some([]) && [] + [i, f] == [i, f];
    assert PackKeys(outer, ix.keys) == Some([i, f]);
    assert [p, 1] + [i, f] + [lo, hi] + ix.data == [p, 1, i, f, lo, hi] + ix.data;
  }

  /** The bytes of one wrapped instruction with one key. */
  lemma OnePacked(outer: seq<Meta>, ix: Inner, k: Meta)
    requires ix.keys == [k] && IndexOf(outer, ix.programId).Some? && IndexOf(outer, k.pubkey).Some? && |ix.data| <= 0xFFFF
    ensures Pack(outer, [ix])
         == Some([2, 1, IndexOf(outer, ix.programId).value, 1, IndexOf(outer, k.pubkey).value,
                  if k.isSigner then (if k.isWritable then 3 else 1) else (if k.isWritable then 2 else 0),
                  |ix.data| % 256, |ix.data| / 256] + ix.data)
  {
    hide IndexOf, PackOne, PackAll;
    OneBody(outer, ix, k);
    PackSingle(outer, ix);
    TwoThenSix(IndexOf(outer, ix.programId).value, IndexOf(outer, k.pubkey).value, FlagsOf(k), |ix.data| % 256, |ix.data| / 256,
               ix.data);
  }

  lemma PackSingle(outer: seq<Meta>, ix: Inner)
    ensures PackAll(outer, [ix]) == PackOne(outer, ix)
  {
    hide PackOne;
    assert [ix][..0] == [] && PackAll(outer, []) == Some([]);
    if PackOne(outer, ix).Some? { assert [] + PackOne(outer, ix).value == PackOne(outer, ix).value; }
  }

  lemma TwoThenSix(p: Byte, i: Byte, f: Byte, lo: Byte, hi: Byte, data: Bytes)
    ensures [2, 1] + ([p, 1, i, f, lo, hi] + data) == [2, 1, p, 1, i, f, lo, hi] + data
  {
  }

  // ---------------------------------------------------------------- when wrapping is possible

  predicate Mentions(ix: Inner, p: Pubkey) {
    ix.programId == p || exists k :: 0 <= k < |ix.keys| && ix.keys[k].pubkey == p
  }

  lemma ConcatNames(s: seq<Touch>, t: seq<Touch>, p: Pubkey)
    ensures Named(s + t, p) <==> Named(s, p) || Named(t, p)
  {
    forall k | 0 <= k < |s| ensures (s + t)[k] == s[k] {}
    forall k | 0 <= k < |t| ensures (s + t)[|s| + k] == t[k] {}
  }

  lemma OneNames(ix: Inner, p: Pubkey)
    ensures Named([Program(ix.programId)] + KeyTouches(ix.keys), p) <==> Mentions(ix, p)
  {
    var s := KeyTouches(ix.keys);
    ConcatNames([Program(ix.programId)], s, p);
    assert Named([Program(ix.programId)], p) <==> ix.programId == p by {
      assert KeyOf([Program(ix.programId)][0]) == ix.programId;
    }
    forall k | 0 <= k < |s| ensures KeyOf(s[k]) == ix.keys[k].pubkey {}
  }

  lemma NothingTouched()
    ensures Touches([]) == []
  {
  }

  lemma TouchesSnoc(inner: seq<Inner>)
    requires inner != []
    ensures var n := |inner| - 1;
            Touches(inner) == Touches(inner[..n]) + ([Program(inner[n].programId)] + KeyTouches(inner[n].keys))
  {
    hide KeyTouches;
  }

  lemma {:induction false} TouchesName(inner: seq<Inner>, p: Pubkey)
    ensures Named(Touches(inner), p) <==> exists k :: 0 <= k < |inner| && Mentions(inner[k], p)
    decreases |inner|
  {
    hide Mentions, Named, Touches, KeyTouches;
    if inner == [] {
      NothingTouched();
      Nothing(p);
    } else {
      var n := |inner| - 1;
      TouchesName(inner[..n], p);
      OneNames(inner[n], p);
      var last := [Program(inner[n].programId)] + KeyTouches(inner[n].keys);
      TouchesSnoc(inner);
      ConcatNames(Touches(inner[..n]), last, p);
      forall k | 0 <= k < n ensures inner[..n][k] == inner[k] {}
    }
  }

  lemma {:induction false} KeysPack(outer: seq<Meta>, keys: seq<Meta>)
    ensures PackKeys(outer, keys).Some? <==> forall k :: 0 <= k < |keys| ==> IndexOf(outer, keys[k].pubkey).Some?
    decreases |keys|
  {
    hide IndexOf;
    if keys != [] {
      var n := |keys| - 1;
      KeysPack(outer, keys[..n]);
      forall k | 0 <= k < n ensures keys[..n][k] == keys[k] {}
    }
  }

  predicate SmallEnough(ix: Inner) { |ix.keys| <= 0xFF && |ix.data| <= 0xFFFF }

  /** Every key the instruction mentions has a number. */
  ghost predicate Numbered(outer: seq<Meta>, ix: Inner) { forall p :: Mentions(ix, p) ==> IndexOf(outer, p).Some? }

  lemma OnePacks(outer: seq<Meta>, ix: Inner)
    ensures PackOne(outer, ix).Some? <==> SmallEnough(ix) && Numbered(outer, ix)
  {
    hide IndexOf, PackKeys;
    KeysPack(outer, ix.keys);
    if Numbered(outer, ix) {
      assert Mentions(ix, ix.programId);
      forall k | 0 <= k < |ix.keys| ensures IndexOf(outer, ix.keys[k].pubkey).Some? { assert Mentions(ix, ix.keys[k].pubkey); }
    }
  }

  lemma {:induction false} AllPack(outer: seq<Meta>, inner: seq<Inner>)
    ensures PackAll(outer, inner).Some? <==> forall k :: 0 <= k < |inner| ==> PackOne(outer, inner[k]).Some?
    decreases |inner|
  {
    hide PackOne;
    if inner != [] {
      var n := |inner| - 1;
      AllPack(outer, inner[..n]);
      forall k | 0 <= k < n ensures inner[..n][k] == inner[k] {}
    }
  }

  /** The last key of a list that is too long to number is mentioned by some instruction, and has no number. */
  lemma TooManyKeys(inner: seq<Inner>, account: Pubkey, session: Pubkey) returns (k: nat)
    requires |OuterKeys(inner, account, session)| > 0x100
    ensures k < |inner| && !Numbered(OuterKeys(inner, account, session), inner[k])
  {
    hide Others, Metas, Find, Mentions, Named;
    var ms := Metas(Touches(inner), account);
    var rest := Others(ms, account, session);
    var p := rest[0xFE].pubkey;
    MetasMean(Touches(inner), account, p);
    OthersMean(ms, account, session, p);
    FindDistinct(rest, 0xFE);
    FindOuter(Meta(account, false, true), Meta(session, true, true), rest, p);
    TouchesName(inner, p);
    k :| 0 <= k < |inner| && Mentions(inner[k], p);
  }

  lemma AllNumbered(inner: seq<Inner>, account: Pubkey, session: Pubkey, k: nat)
    requires |OuterKeys(inner, account, session)| <= 0x100 && k < |inner|
    ensures Numbered(OuterKeys(inner, account, session), inner[k])
  {
    hide Others, Metas, Find, Mentions, Named;
    var ms := Metas(Touches(inner), account);
    var rest := Others(ms, account, session);
    forall p | Mentions(inner[k], p) ensures IndexOf(OuterKeys(inner, account, session), p).Some? {
      TouchesName(inner, p);
      MetasMean(Touches(inner), account, p);
      OthersMean(ms, account, session, p);
      FindOuter(Meta(account, false, true), Meta(session, true, true), rest, p);
    }
  }

  /** Wrapping fails exactly on too many instructions, keys or data bytes, or on more than 256 different keys. */
  lemma Packs(inner: seq<Inner>, account: Pubkey, session: Pubkey)
    ensures var outer := OuterKeys(inner, account, session);
            Pack(outer, inner).Some? <==>
              |inner| <= 0xFF && |outer| <= 0x100 && forall k :: 0 <= k < |inner| ==> SmallEnough(inner[k])
  {
    hide PackAll, PackOne, OuterKeys, SmallEnough, Numbered;
    var outer := OuterKeys(inner, account, session);
    AllPack(outer, inner);
    forall k | 0 <= k < |inner| ensures PackOne(outer, inner[k]).Some? <==> SmallEnough(inner[k]) && Numbered(outer, inner[k]) {
      OnePacks(outer, inner[k]);
    }
    if |outer| > 0x100 {
      var k := TooManyKeys(inner, account, session);
    } else {
      forall k | 0 <= k < |inner| ensures Numbered(outer, inner[k]) { AllNumbered(inner, account, session, k); }
    }
  }

  // ---------------------------------------------------------------- the code that packs

  datatype Wrapped = Wrapped(outerKeys: seq<Meta>, data: Bytes)

  lemma MetasSnoc(ts: seq<Touch>, t: Touch, account: Pubkey)
    ensures Metas(ts + [t], account) == Touched(Metas(ts, account), t, account)
  {
    hide Touched;
    assert (ts + [t])[..|ts|] == ts;
  }

  lemma TouchesStep(inner: seq<Inner>, i: nat)
    requires i < |inner|
    ensures Touches(inner[..i + 1]) == Touches(inner[..i]) + [Program(inner[i].programId)] + KeyTouches(inner[i].keys)
  {
    assert inner[..i + 1][..i] == inner[..i];
  }

  lemma KeyTouchesStep(keys: seq<Meta>, j: nat)
    requires j < |keys|
    ensures KeyTouches(keys[..j + 1]) == KeyTouches(keys[..j]) + [Key(keys[j])]
  {
    assert keys[..j + 1][..j] == keys[..j];
  }

  /** The loop that fills the table of metas. */
  method CollectMetas(inner: seq<Inner>, account: Pubkey) returns (metas: seq<Meta>)
    ensures metas == Metas(Touches(inner), account)
  {
    hide Metas, Touches, Flag, Put;
    metas := [];
    NoTouches(inner, account);
    for i := 0 to |inner|
      invariant metas == Metas(Touches(inner[..i]), account)
    {
      var ix := inner[i];
      ghost var before := Touches(inner[..i]) + [Program(ix.programId)];
      MetasSnoc(Touches(inner[..i]), Program(ix.programId), account);
      metas := Put(metas, Meta(ix.programId, false, false));
      NoKeys(before, ix.keys);
      for j := 0 to |ix.keys|
        invariant metas == Metas(before + KeyTouches(ix.keys[..j]), account)
      {
        var k := ix.keys[j];
        ghost var seen := before + KeyTouches(ix.keys[..j]);
        MetasSnoc(seen, Key(k), account);
        KeyTouchesStep(ix.keys, j);
        assert seen + [Key(k)] == before + KeyTouches(ix.keys[..j + 1]);
        var cur := Flag(metas, k.pubkey);
        var isSigner := if k.pubkey == account then false else cur.isSigner || k.isSigner;
        metas := Put(metas, Meta(k.pubkey, isSigner, cur.isWritable || k.isWritable));
      }
      assert ix.keys[..|ix.keys|] == ix.keys;
      TouchesStep(inner, i);
    }
    assert inner[..|inner|] == inner;
  }

  lemma NoTouches(inner: seq<Inner>, account: Pubkey)
    ensures Metas(Touches(inner[..0]), account) == []
  {
  }

  lemma NoKeys(before: seq<Touch>, keys: seq<Meta>)
    ensures before + KeyTouches(keys[..0]) == before
  {
  }

  lemma PackKeysStep(outer: seq<Meta>, keys: seq<Meta>, j: nat)
    requires j < |keys|
    ensures PackKeys(outer, keys[..j + 1]) ==
            match PackKeys(outer, keys[..j])
            case None => None
            case Some(b) =>
              match IndexOf(outer, keys[j].pubkey)
              case None => None
              case Some(i) => Some(b + [i, FlagsOf(keys[j])])
  {
    hide IndexOf, FlagsOf;
    assert keys[..j + 1][..j] == keys[..j];
  }

  lemma {:induction false} PackKeysFails(outer: seq<Meta>, keys: seq<Meta>, j: nat)
    requires j <= |keys| && PackKeys(outer, keys[..j]).None?
    ensures PackKeys(outer, keys).None?
    decreases |keys| - j
  {
    hide PackKeys;
    if j < |keys| {
      PackKeysStep(outer, keys, j);
      PackKeysFails(outer, keys, j + 1);
    } else {
      assert keys[..j] == keys;
    }
  }

  /** One instruction's part of the payload; `None` is a throw. */
  method PushInner(outer: seq<Meta>, ix: Inner) returns (r: Option<Bytes>)
    ensures r == PackOne(outer, ix)
  {
    hide PackKeys, IndexOf, FlagsOf;
    if |ix.keys| > 0xFF { return None; }
    var program :- IndexOf(outer, ix.programId);
    var keys: Bytes := [];
    NoPackedKeys(outer, ix.keys);
    for j := 0 to |ix.keys|
      invariant PackKeys(outer, ix.keys[..j]) == Some(keys)
    {
      var k := ix.keys[j];
      PackKeysStep(outer, ix.keys, j);
      var at := IndexOf(outer, k.pubkey);
      if at.None? {
        PackKeysFails(outer, ix.keys, j + 1);
        return None;
      }
      keys := keys + [at.value, FlagsOf(k)];
    }
    assert ix.keys[..|ix.keys|] == ix.keys;
    if |ix.data| > 0xFFFF { return None; }
    return Some([program, |ix.keys|] + keys + [|ix.data| % 256, |ix.data| / 256] + ix.data);
  }

  lemma NoPackedKeys(outer: seq<Meta>, keys: seq<Meta>)
    ensures PackKeys(outer, keys[..0]) == Some([])
  {
  }

  lemma PackAllStep(outer: seq<Meta>, inner: seq<Inner>, i: nat)
    requires i < |inner|
    ensures PackAll(outer, inner[..i + 1]) ==
            match PackAll(outer, inner[..i])
            case None => None
            case Some(b) =>
              match PackOne(outer, inner[i])
              case None => None
              case Some(part) => Some(b + part)
  {
    hide PackOne;
    assert inner[..i + 1][..i] == inner[..i];
  }

  lemma {:induction false} PackAllFails(outer: seq<Meta>, inner: seq<Inner>, i: nat)
    requires i <= |inner| && PackAll(outer, inner[..i]).None?
    ensures PackAll(outer, inner).None?
    decreases |inner| - i
  {
    hide PackAll;
    if i < |inner| {
      PackAllStep(outer, inner, i);
      PackAllFails(outer, inner, i + 1);
    } else {
      assert inner[..i] == inner;
    }
  }

  /** The packing part of `wrapForExecute`; `None` is a throw. */
  method WrapForExecute(inner: seq<Inner>, account: Pubkey, session: Pubkey) returns (r: Option<Wrapped>)
    ensures var outer := OuterKeys(inner, account, session);
            r == match Pack(outer, inner) case None => None case Some(data) => Some(Wrapped(outer, data))
  {
    hide PackAll, PackOne, Metas, Touches, Others;
    var metas := CollectMetas(inner, account);
    var outer := [Meta(account, false, true), Meta(session, true, true)] + Others(metas, account, session);
    if |inner| > 0xFF { return None; }
    var parts: Bytes := [OP_EXECUTE, |inner|];
    NoPackedInner(outer, inner);
    ghost var body: Bytes := [];
    for i := 0 to |inner|
      invariant PackAll(outer, inner[..i]) == Some(body) && parts == [OP_EXECUTE, |inner|] + body
    {
      PackAllStep(outer, inner, i);
      var part := PushInner(outer, inner[i]);
      if part.None? {
        PackAllFails(outer, inner, i + 1);
        return None;
      }
      assert parts + part.value == [OP_EXECUTE, |inner|] + (body + part.value);
      parts, body := parts + part.value, body + part.value;
    }
    assert inner[..|inner|] == inner;
    return Some(Wrapped(outer, parts));
  }

  lemma NoPackedInner(outer: seq<Meta>, inner: seq<Inner>)
    ensures PackAll(outer, inner[..0]) == Some([])
  {
  }

  /** The inner loop of the decoder: `n` pairs from the cursor on. */
  method DecodeAccountsLoop(d: Bytes, start: nat, n: nat) returns (accounts: seq<Account>, o: nat)
    ensures accounts == DecodeAccounts(d, start, n) && o == start + 2 * n
  {
    hide Number, ReadAt;
    o, accounts := start, [];
    for a := 0 to n
      invariant o == start + 2 * a && accounts == DecodeAccounts(d, start, a)
    {
      var flags := Number(ReadAt(d, o + 1));
      accounts := accounts + [Account(ReadAt(d, o), flags % 2 == 1, flags / 2 % 2 == 1)];
      o := o + 2;
    }
  }

  /** `decodeExecuteData`: a cursor walks the payload. */
  method DecodeExecuteData(d: Bytes) returns (r: Option<seq<Decoded>>)
    ensures r == Decode(d)
  {
    hide Number, ReadAt, DecodeAccounts, Slice;
    if |d| < 2 || d[0] != OP_EXECUTE { return None; }
    var o: nat := 2;
    var out: seq<Decoded> := [];
    for i := 0 to d[1] as int
      invariant Reading(out, o) == DecodeAll(d, 2, i)
    {
      ghost var start := o;
      var programIdx, count := ReadAt(d, o), Number(ReadAt(d, o + 1));
      var accounts;
      accounts, o := DecodeAccountsLoop(d, o + 2, count);
      var dataLen := Number(ReadAt(d, o)) as int + 256 * Number(ReadAt(d, o + 1)) as int;
      o := o + 2;
      out := out + [Decoded(programIdx, accounts, Slice(d, o, o + dataLen))];
      o := o + dataLen;
      assert DecodeOne(d, start) == Reading(out[|out| - 1], o);
    }
    return Some(out);
  }

  // ---------------------------------------------------------------- the largest chunk that fits

  const MAX_TX_BYTES: nat := 1232

  /** The size of the whole transaction for a payload length; `None` when the serialiser overruns its buffer. */
  type SizeOf = nat -> Option<nat>

  predicate FitsIn(size: SizeOf, n: nat) { size(n).Some? && size(n).value <= MAX_TX_BYTES }

  ghost predicate Monotone(size: SizeOf) { forall m: nat, n: nat :: m <= n && FitsIn(size, n) ==> FitsIn(size, m) }

  /** From `limit` on nothing fits. */
  ghost predicate Bounded(size: SizeOf, limit: nat) { forall n: nat :: n >= limit ==> !FitsIn(size, n) }

  /** `lo` fits, unless it is 0, and one more does not. */
  ghost predicate Boundary(size: SizeOf, lo: nat) { (lo > 0 ==> FitsIn(size, lo)) && !FitsIn(size, lo + 1) }

  /** `lo` is the largest payload that fits, or 0 if none does. */
  ghost predicate Largest(size: SizeOf, lo: nat) { forall n: nat :: n > 0 ==> (FitsIn(size, n) <==> n <= lo) }

  /** If a shorter payload never needs more room, a boundary is the largest payload, and there is only one. */
  lemma BoundaryIsLargest(size: SizeOf, lo: nat)
    requires Monotone(size)
    ensures Boundary(size, lo) <==> Largest(size, lo)
  {
    hide FitsIn;
    if Boundary(size, lo) {
      forall n: nat | n > 0 ensures FitsIn(size, n) <==> n <= lo {
        NextFits(size, lo, n);
      }
    }
  }

  lemma NextFits(size: SizeOf, lo: nat, n: nat)
    requires Monotone(size)
    ensures n > lo && FitsIn(size, n) ==> FitsIn(size, lo + 1)
  {
    hide FitsIn;
  }

  /** Doubling, then bisecting. */
  method SearchLargest(size: SizeOf, ghost limit: nat) returns (lo: nat)
    requires Bounded(size, limit)
    ensures Boundary(size, lo) && (Monotone(size) ==> Largest(size, lo))
  {
    hide FitsIn, Largest;
    lo := 0;
    var hi: nat := 1;
    while FitsIn(size, hi)
      invariant hi > 0
      decreases limit - hi
    {
      hi := hi * 2;
    }
    while lo < hi - 1
      invariant lo < hi && !FitsIn(size, hi) && (lo == 0 || FitsIn(size, lo))
    {
      var mid: nat := (lo + hi) / 2;
      if FitsIn(size, mid) { lo := mid; } else { hi := mid; }
    }
    if Monotone(size) { BoundaryIsLargest(size, lo); }
  }

  /** The search with its memory of earlier answers, one per program. */
  class ChunkSizes {
    const sizeFor: Pubkey -> SizeOf
    ghost const limit: Pubkey -> nat
    var cache: map<Pubkey, nat>

    /** Every search ends, and every remembered answer is one that a search could give. */
    ghost predicate Valid()
      reads this
    {
      && (forall p: Pubkey :: Bounded(sizeFor(p), limit(p)))
      && (forall p :: p in cache ==> Boundary(sizeFor(p), cache[p]))
    }

    constructor (sizes: Pubkey -> SizeOf, ghost limits: Pubkey -> nat)
      requires forall p: Pubkey :: Bounded(sizes(p), limits(p))
      ensures Valid() && cache == map[] && sizeFor == sizes
    {
      sizeFor, limit, cache := sizes, limits, map[];
    }

    method MaxStageChunkPayloadBytes(program: Pubkey) returns (lo: nat)
      requires Valid()
      modifies this
      ensures Valid() && cache == old(cache)[program := lo]
      ensures Boundary(sizeFor(program), lo) && (Monotone(sizeFor(program)) ==> Largest(sizeFor(program), lo))
    {
      hide Largest, Boundary, Monotone;
      assert Bounded(sizeFor(program), limit(program));
      if program in cache {
        lo := cache[program];
        if Monotone(sizeFor(program)) { BoundaryIsLargest(sizeFor(program), lo); }
        return;
      }
      lo := SearchLargest(sizeFor(program), limit(program));
      cache := cache[program := lo];
    }
  }
}
