/** String interning: every text gets one id, kept in an append-only file. */
module Interner {
  import opened Bytes

  type Text = seq<byte>

  const U64_LIMIT := 0x1_0000_0000_0000_0000

  function U64Bytes(n: nat): (b: seq<byte>)
    requires n < U64_LIMIT
    ensures |b| == 8
  {
    U32Bytes(n % U32_LIMIT) + U32Bytes(n / U32_LIMIT)
  }

  function U64(b: seq<byte>): (n: nat)
    requires |b| == 8
    ensures n < U64_LIMIT
  {
    U32(b[..4]) + U32_LIMIT * U32(b[4..])
  }

  lemma U64ReadBack(n: nat)
    requires n < U64_LIMIT
    ensures U64(U64Bytes(n)) == n
  {
    var b := U64Bytes(n);
    assert b[..4] == U32Bytes(n % U32_LIMIT) && b[4..] == U32Bytes(n / U32_LIMIT);
    U32Bijection(n % U32_LIMIT, b[..4]);
    U32Bijection(n / U32_LIMIT, b[4..]);
  }

  /** Texts short enough for their length to be stored, none of them twice, and few enough
      for their ids. The text at place `i` has the id `i + 1`. */
  ghost predicate TextsOk(texts: seq<Text>) {
    && |texts| + 1 < U32_LIMIT
    && (forall i :: 0 <= i < |texts| ==> |texts[i]| < U64_LIMIT)
    && forall i, j :: 0 <= i < j < |texts| ==> texts[i] != texts[j]
  }

  ghost function Entry(id: nat, text: Text): seq<byte>
    requires id < U32_LIMIT && |text| < U64_LIMIT
  {
    U32Bytes(id) + U64Bytes(|text|) + text
  }

  ghost function StringFile(texts: seq<Text>): seq<byte>
    requires TextsOk(texts)
  {
    if texts == [] then [] else
      var n := |texts| - 1;
      StringFile(texts[..n]) + Entry(|texts|, texts[n])
  }

  lemma {:induction false} PrefixOfFile(texts: seq<Text>, n: nat)
    requires TextsOk(texts) && n <= |texts|
    ensures StringFile(texts[..n]) <= StringFile(texts)
    decreases |texts|
  {
    if n < |texts| {
      var init := texts[..|texts| - 1];
      assert init[..n] == texts[..n];
      PrefixOfFile(init, n);
    } else {
      assert texts[..n] == texts;
    }
  }

  /** The entry behind the first `n`: its three parts, and where it ends. */
  lemma NextEntry(texts: seq<Text>, n: nat)
    requires TextsOk(texts) && n < |texts|
    ensures var f, p := StringFile(texts), |StringFile(texts[..n])|; var size := |texts[n]|;
      && p + 12 + size <= |f|
      && U32(f[p..p + 4]) == n + 1 && U64(f[p + 4..p + 12]) == size && f[p + 12..p + 12 + size] == texts[n]
      && |StringFile(texts[..n + 1])| == p + 12 + size
  {
    hide U64, U64Bytes, StringFile;
    PrefixOfFile(texts, n + 1);
    var f, g, t := StringFile(texts), StringFile(texts[..n + 1]), texts[n];
    FileOfMore(texts[..n + 1], texts[..n], t);
    var p := |StringFile(texts[..n])|;
    assert g[p..] == Entry(n + 1, t);
    EntryParts(f, g, p, U32Bytes(n + 1), U64Bytes(|t|), t);
    U32Bijection(n + 1, U32Bytes(n + 1));
    U64ReadBack(|t|);
  }

  lemma EntryParts(f: seq<byte>, g: seq<byte>, p: nat, a: seq<byte>, b: seq<byte>, t: seq<byte>)
    requires g <= f && p <= |g| && g[p..] == a + b + t && |a| == 4 && |b| == 8
    ensures p + 12 + |t| == |g| <= |f|
    ensures f[p..p + 4] == a && f[p + 4..p + 12] == b && f[p + 12..p + 12 + |t|] == t
  {
    var s := a + b + t;
    assert s[0..4] == a && s[4..12] == b && s[12..12 + |t|] == t;
    assert forall i :: 0 <= i < |s| ==> f[p + i] == g[p..][i];
  }

  function Max(a: nat, b: nat): nat { if a < b then b else a }

  lemma OneMoreText(texts: seq<Text>, t: Text)
    requires TextsOk(texts) && |t| < U64_LIMIT && t !in texts && |texts| + 2 < U32_LIMIT
    ensures TextsOk(texts + [t]) && StringFile(texts + [t]) == StringFile(texts) + Entry(|texts| + 1, t)
  {
    hide StringFile, Entry;
    var u := texts + [t];
    forall i, j | 0 <= i < j < |u| ensures u[i] != u[j] {
      assert u[i] == texts[i] && texts[i] in texts;
    }
    FileOfMore(u, texts, t);
  }

  lemma FileOfMore(u: seq<Text>, texts: seq<Text>, t: Text)
    requires TextsOk(texts) && TextsOk(u) && u == texts + [t] && |t| < U64_LIMIT
    ensures StringFile(u) == StringFile(texts) + Entry(|u|, t)
  {
    assert u[..|u| - 1] == texts;
  }

  /** Every id of `a` means the same in `b`. */
  ghost predicate Extends(a: map<nat, Text>, b: map<nat, Text>) {
    forall i :: i in a ==> i in b && b[i] == a[i]
  }

  class Interner {
    var stringToId: map<Text, nat>
    var idToView: map<nat, Text>
    var nextId: nat
    var storage: seq<byte>
    ghost var texts: seq<Text>

    /** Ids and texts are in bijection, and the file holds them all in order. */
    ghost predicate Valid()
      reads this
    {
      TextsOk(texts) && Holds(texts) && storage == StringFile(texts)
    }

    ghost predicate Holds(ts: seq<Text>)
      reads `nextId, `idToView, `stringToId
    {
      && nextId == |ts| + 1
      && (forall id :: id in idToView <==> 1 <= id < nextId)
      && (forall id :: id in idToView ==> idToView[id] == ts[id - 1])
      && (forall t :: t in stringToId ==> stringToId[t] in idToView && idToView[stringToId[t]] == t)
      && (forall i :: 0 <= i < |ts| ==> ts[i] in stringToId)
    }

    /** Opening a file written before rebuilds the same ids. */
    constructor (file: seq<byte>, ghost texts: seq<Text>)
      requires TextsOk(texts) && file == StringFile(texts)
      ensures Valid() && this.texts == texts
    {
      storage := file;
      stringToId, idToView, nextId := map[], map[], 1;
      this.texts := texts;
      new;
      LoadStorage();
    }

    method LoadStorage()
      requires TextsOk(texts) && storage == StringFile(texts) && stringToId == map[] && idToView == map[] && nextId == 1
      modifies `stringToId, `idToView, `nextId
      ensures Valid()
    {
      hide StringFile, Holds;
      var pos: nat := 0;
      ghost var n: nat := 0;
      NothingLoaded();
      while true
        invariant n <= |texts| && pos == |StringFile(texts[..n])| && Holds(texts[..n]) && pos <= |storage|
        decreases |texts| - n
      {
        PrefixOfFile(texts, n);
        if |storage| - pos < 4 {
          AllRead(n);
          return;
        }
        MoreToRead(n);
        NextEntry(texts, n);
        var storedId := U32(storage[pos..pos + 4]);
        var size := U64(storage[pos + 4..pos + 12]);
        var value := storage[pos + 12..pos + 12 + size];
        AddLoadedString(storedId, value, n);
        pos, n := pos + 12 + size, n + 1;
      }
    }

    lemma NothingLoaded()
      requires TextsOk(texts) && stringToId == map[] && idToView == map[] && nextId == 1
      ensures TextsOk(texts[..0]) && StringFile(texts[..0]) == [] && Holds(texts[..0])
    {
    }

    lemma AllRead(n: nat)
      requires TextsOk(texts) && storage == StringFile(texts) && n <= |texts|
      requires |storage| - |StringFile(texts[..n])| < 4
      ensures n == |texts| && texts[..n] == texts
    {
      if n < |texts| { NextEntry(texts, n); }
    }

    lemma MoreToRead(n: nat)
      requires TextsOk(texts) && storage == StringFile(texts) && n <= |texts|
      requires |storage| > |StringFile(texts[..n])|
      ensures n < |texts|
    {
      assert texts[..|texts|] == texts;
    }

    method AddLoadedString(id: nat, value: Text, ghost n: nat)
      requires TextsOk(texts) && n < |texts| && Holds(texts[..n]) && id == n + 1 && value == texts[n]
      modifies `stringToId, `idToView, `nextId
      ensures Holds(texts[..n + 1])
    {
      nextId := Max(nextId, id + 1);
      if id !in idToView {
        idToView := idToView[id := value];
      }
      if value !in stringToId {
        stringToId := stringToId[value := id];
      }
    }

    method AppendToDisk(id: nat, text: Text)
      requires id < U32_LIMIT && |text| < U64_LIMIT
      modifies `storage
      ensures storage == old(storage) + Entry(id, text)
    {
      storage := storage + U32Bytes(id);
      storage := storage + U64Bytes(|text|);
      storage := storage + text;
      assert storage == old(storage) + Entry(id, text);
    }

    /** The maps learn the next id. */
    method Register(text: Text)
      requires Holds(texts) && text !in stringToId
      modifies `stringToId, `idToView, `nextId
      ensures Holds(texts + [text]) && nextId == old(nextId) + 1 && old(nextId) in idToView
        && idToView[old(nextId)] == text
      ensures Extends(old(idToView), idToView) && stringToId.Keys == old(stringToId).Keys + {text}
    {
      stringToId := stringToId[text := nextId];
      idToView := idToView[nextId := text];
      nextId := nextId + 1;
    }

    lemma NewText(text: Text)
      requires Valid() && text !in stringToId
      ensures text !in texts && nextId == |texts| + 1
    {
    }

    lemma OldText(text: Text)
      requires Valid() && text in stringToId
      ensures var id := stringToId[text]; id in idToView && idToView[id] == text && id < nextId
    {
    }

    /** The id of a text; a new text gets the next id, and no id changes its meaning. */
    method Intern(text: Text) returns (id: nat)
      requires Valid() && |text| < U64_LIMIT && nextId + 1 < U32_LIMIT
      modifies this
      ensures Valid() && id in idToView && idToView[id] == text && id < nextId <= old(nextId) + 1
      ensures text in old(stringToId) ==> unchanged(this) && id == old(stringToId)[text]
      ensures text !in old(stringToId) ==> texts == old(texts) + [text] && id == old(nextId)
      ensures Extends(old(idToView), idToView) && stringToId.Keys == old(stringToId).Keys + {text}
      ensures nextId == old(nextId) + if text in old(stringToId) then 0 else 1
    {
      hide StringFile, Entry, Holds, TextsOk;
      if text in stringToId {
        OldText(text);
        return stringToId[text];
      }
      NewText(text);
      OneMoreText(texts, text);
      id := nextId;
      AppendToDisk(id, text);
      Register(text);
      texts := texts + [text];
    }

    /** The text of an issued id. */
    method View(id: nat) returns (text: Option<Text>)
      requires Valid()
      ensures text == if 1 <= id <= |texts| then Some(texts[id - 1]) else None
    {
      text := if id in idToView then Some(idToView[id]) else None;
    }

    /** Equal ids mean equal texts and the other way round. */
    lemma Injective(i: nat, j: nat)
      requires Valid() && i in idToView && j in idToView
      ensures i == j <==> idToView[i] == idToView[j]
    {
      assert idToView[i] in stringToId by { assert texts[i - 1] in stringToId; }
      assert idToView[j] in stringToId by { assert texts[j - 1] in stringToId; }
    }
  }
}
