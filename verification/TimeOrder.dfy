/** Bytes of texts, and the order of digits and time stamps as texts. */
module TimeOrder {
  import opened Bytes
  import opened Ast
  import opened StatementGrammar
  import opened TableSpec
  import J = Journal
  import opened Executor

  // The bytes of a text.

  predicate IsBytes(s: string) { forall i :: 0 <= i < |s| ==> s[i] as int < 256 }

  /** Texts are told apart by their bytes, which are the codes of their characters. */
  lemma TextsDiffer(a: string, b: string)
    requires IsBytes(a) && IsBytes(b)
    ensures |TextOf(a)| == |a| && forall i :: 0 <= i < |a| ==> TextOf(a)[i] == a[i] as int
    ensures TextOf(a) == TextOf(b) <==> a == b
  {
    if TextOf(a) == TextOf(b) {
      assert |a| == |b|;
      forall i | 0 <= i < |a| ensures a[i] == b[i] {
        assert TextOf(a)[i] == a[i] as int && TextOf(b)[i] == b[i] as int;
      }
    }
  }

  lemma TextOfCat(a: string, b: string)
    ensures TextOf(a + b) == TextOf(a) + TextOf(b)
  {
  }

  // Digits.

  /** Of digits in equal number the order as texts is that of the numbers. */
  lemma {:induction false} DigitsInOrder(a: string, b: string)
    requires |a| == |b| && AllDigits(a) && AllDigits(b)
    ensures LexLess(TextOf(a), TextOf(b)) <==> DigitsValue(a) < DigitsValue(b)
    ensures a == b <==> DigitsValue(a) == DigitsValue(b)
    decreases |a|
  {
    hide LexLess;
    if a == "" {
      NothingIsLess();
    } else {
      var n := |a| - 1;
      var (x, y) := (a[..n], b[..n]);
      assert a == x + [a[n]] && b == y + [b[n]];
      DigitsInOrder(x, y);
      TextOfCat(x, [a[n]]);
      TextOfCat(y, [b[n]]);
      LexLessCat(TextOf(x), TextOf([a[n]]), TextOf(y), TextOf([b[n]]));
      TextsDiffer(x, y);
      OneDigit(a[n], b[n]);
    }
  }

  lemma NothingIsLess()
    ensures !LexLess(TextOf(""), TextOf(""))
  {
  }

  lemma OneDigit(c: char, d: char)
    requires IsDigit(c) && IsDigit(d)
    ensures LexLess(TextOf([c]), TextOf([d])) <==> c < d
  {
    assert TextOf([c])[1..] == [] && TextOf([d])[1..] == [];
  }

  // Time stamps.

  /** `s` without its character `k`. */
  function Without<T>(s: seq<T>, k: nat): (r: seq<T>)
    requires k < |s|
    ensures |r| == |s| - 1
    ensures forall i :: 0 <= i < |r| ==> r[i] == s[if i < k then i else i + 1]
  {
    s[..k] + s[k + 1..]
  }

  /** A time stamp without its punctuation: year, month, day, hour, minute, second, millisecond. */
  function StampDigits(s: string): (d: string)
    requires |s| == 23
    ensures |d| == 17
  {
    Without(Without(Without(Without(Without(Without(s, 19), 16), 13), 10), 7), 4)
  }

  predicate IsStamp(s: string) { IsTimestamp(s) && AllDigits(StampDigits(s)) }

  function StampNumber(s: string): nat
    requires IsStamp(s)
  {
    DigitsValue(StampDigits(s))
  }

  /** What two texts share at one place does not tell them apart. */
  lemma LessWithout(a: string, b: string, k: nat)
    requires |a| == |b| && k < |a| && a[k] == b[k]
    ensures LexLess(TextOf(a), TextOf(b)) <==> LexLess(TextOf(Without(a, k)), TextOf(Without(b, k)))
  {
    hide LexLess;
    var (s, t) := (TextOf(a), TextOf(b));
    assert s == s[..k] + ([s[k]] + s[k + 1..]) && t == t[..k] + ([t[k]] + t[k + 1..]);
    LexLessCat(s[..k], [s[k]] + s[k + 1..], t[..k], [t[k]] + t[k + 1..]);
    LexLessCat([s[k]], s[k + 1..], [t[k]], t[k + 1..]);
    LexLessCat(s[..k], s[k + 1..], t[..k], t[k + 1..]);
    assert TextOf(Without(a, k)) == s[..k] + s[k + 1..] && TextOf(Without(b, k)) == t[..k] + t[k + 1..];
    LexOrder([s[k]], [t[k]], []);
  }

  /** The order of time stamps as texts is that of the times. */
  lemma StampsInOrder(a: string, b: string)
    requires IsStamp(a) && IsStamp(b)
    ensures LexLess(TextOf(a), TextOf(b)) <==> StampNumber(a) < StampNumber(b)
  {
    hide LexLess, TextOf, AllDigits;
    LessWithout(a, b, 19);
    var (a5, b5) := (Without(a, 19), Without(b, 19));
    LessWithout(a5, b5, 16);
    var (a4, b4) := (Without(a5, 16), Without(b5, 16));
    LessWithout(a4, b4, 13);
    var (a3, b3) := (Without(a4, 13), Without(b4, 13));
    LessWithout(a3, b3, 10);
    var (a2, b2) := (Without(a3, 10), Without(b3, 10));
    LessWithout(a2, b2, 7);
    LessWithout(Without(a2, 7), Without(b2, 7), 4);
    DigitsInOrder(StampDigits(a), StampDigits(b));
  }

  /** The tracks bear the time stamps `stamps`. */
  ghost predicate StampedWith(tracks: seq<J.Track>, stamps: seq<string>) {
    |tracks| == |stamps| && forall i :: 0 <= i < |tracks| ==> IsStamp(stamps[i]) && tracks[i].time == TextOf(stamps[i])
  }

  /** Reverting to a time keeps exactly the operations of an earlier time, when the clock
      never went back. */
  lemma KeptAreEarlier(tracks: seq<J.Track>, stamps: seq<string>, time: string)
    requires StampedWith(tracks, stamps) && IsStamp(time)
    requires forall i, j :: 0 <= i < j < |stamps| ==> StampNumber(stamps[i]) <= StampNumber(stamps[j])
    ensures forall i :: 0 <= i < |tracks| ==>
      (i < Kept(tracks, TextOf(time)) <==> StampNumber(stamps[i]) < StampNumber(time))
  {
    hide LexLess, TextOf, StampNumber, IsStamp;
    forall i, j | 0 <= i < j < |tracks| ensures !LexLess(tracks[j].time, tracks[i].time) {
      StampsInOrder(stamps[j], stamps[i]);
    }
    KeptIsFirst(tracks, TextOf(time));
    forall i | 0 <= i < |tracks|
      ensures i < Kept(tracks, TextOf(time)) <==> StampNumber(stamps[i]) < StampNumber(time)
    {
      StampsInOrder(stamps[i], time);
    }
  }
}
