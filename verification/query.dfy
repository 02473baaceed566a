/**
 The part of Go's `net/url` that builds a query string: `url.Values` as a map
 from key to a list of values, `Values.Set`, `QueryEscape` and `Values.Encode`,
 which emits `key=value` pairs joined by `&` with the keys in sorted order.
 */
module Query {

  // Ordering of keys

  /** Strict lexicographic order on strings. Comparing characters by code point
      is the same as Go's byte-wise comparison of the UTF-8 encodings. */
  predicate Less(a: string, b: string) {
    b != [] && (a == [] || a[0] < b[0] || (a[0] == b[0] && Less(a[1..], b[1..])))
  }

  lemma {:induction false} LessIrreflexive(a: string)
    ensures !Less(a, a)
  {
    if a != [] {
      LessIrreflexive(a[1..]);
    }
  }

  lemma {:induction false} LessAsymmetric(a: string, b: string)
    requires Less(a, b)
    ensures !Less(b, a)
  {
    if a != [] && a[0] == b[0] {
      LessAsymmetric(a[1..], b[1..]);
    }
  }

  lemma {:induction false} LessTransitive(a: string, b: string, c: string)
    requires Less(a, b) && Less(b, c)
    ensures Less(a, c)
  {
    if a != [] && a[0] == b[0] && b[0] == c[0] {
      LessTransitive(a[1..], b[1..], c[1..]);
    }
  }

  lemma {:induction false} LessTotal(a: string, b: string)
    requires a != b
    ensures Less(a, b) || Less(b, a)
  {
    if a != [] && b != [] && a[0] == b[0] {
      assert a == [a[0]] + a[1..] && b == [b[0]] + b[1..];
      LessTotal(a[1..], b[1..]);
    }
  }

  /** `m` is the least element of `s`. */
  predicate IsLeast(m: string, s: set<string>) {
    m in s && forall k :: k in s && k != m ==> Less(m, k)
  }

  lemma {:induction false} LeastExists(s: set<string>)
    requires s != {}
    ensures exists m :: IsLeast(m, s)
    decreases |s|
  {
    var x :| x in s;
    if s != {x} {
      LeastExists(s - {x});
      var m :| IsLeast(m, s - {x});
      if Less(m, x) {
        assert IsLeast(m, s);
      } else {
        LessTotal(m, x);
        forall k | k in s && k != x
          ensures Less(x, k)
        {
          if k != m {
            LessTransitive(x, m, k);
          }
        }
        assert IsLeast(x, s);
      }
    } else {
      assert IsLeast(x, s);
    }
  }

  lemma LeastIsUnique(s: set<string>)
    ensures forall m1, m2 :: IsLeast(m1, s) && IsLeast(m2, s) ==> m1 == m2
  {
    forall m1, m2 | IsLeast(m1, s) && IsLeast(m2, s) ensures m1 == m2 {
      if m1 != m2 {
        LessAsymmetric(m1, m2);
      }
    }
  }

  /** Every earlier element is below every later one. */
  predicate StrictlySorted(r: seq<string>) {
    forall i, j :: 0 <= i < j < |r| ==> Less(r[i], r[j])
  }

  /** The keys of a map in increasing order, as `slices.Sort` leaves them. */
  function SortedKeys(s: set<string>): (r: seq<string>)
    ensures |r| == |s|
    ensures forall k :: k in r <==> k in s
    ensures StrictlySorted(r)
    decreases |s|
  {
    if s == {} then []
    else
      LeastExists(s);
      LeastIsUnique(s);
      var m :| IsLeast(m, s);
      var rest := SortedKeys(s - {m});
      assert forall k :: k in rest ==> Less(m, k);
      [m] + rest
  }

  /** In an increasing sequence the first element is below all the others. */
  lemma HeadNotInTail(a: seq<string>)
    requires StrictlySorted(a) && a != []
    ensures a[0] !in a[1..]
  {
    if a[0] in a[1..] {
      var j :| 0 <= j < |a| - 1 && a[1..][j] == a[0];
      assert Less(a[0], a[j + 1]);
      LessIrreflexive(a[0]);
    }
  }

  /** Two increasing sequences with the same elements are the same sequence. */
  lemma {:induction false} SortedUnique(a: seq<string>, b: seq<string>)
    requires StrictlySorted(a) && StrictlySorted(b)
    requires forall k :: k in a <==> k in b
    ensures a == b
    decreases |a|
  {
    if a != [] {
      assert a[0] in b;
    }
    if b != [] {
      assert b[0] in a;
    }
    if a != [] && b != [] {
      if a[0] != b[0] {
        var i :| 0 <= i < |b| && b[i] == a[0];
        var j :| 0 <= j < |a| && a[j] == b[0];
        assert i > 0 && j > 0;
        LessAsymmetric(b[0], b[i]);
      }
      HeadNotInTail(a);
      HeadNotInTail(b);
      assert a == [a[0]] + a[1..] && b == [b[0]] + b[1..];
      forall k ensures k in a[1..] <==> k in b[1..] {
        assert k in a <==> k == a[0] || k in a[1..];
        assert k in b <==> k == b[0] || k in b[1..];
      }
      SortedUnique(a[1..], b[1..]);
    }
  }

  // Escaping

  /** Characters `QueryEscape` copies unchanged. */
  predicate Unreserved(c: char) {
    || ('a' <= c <= 'z') || ('A' <= c <= 'Z') || ('0' <= c <= '9')
    || c == '-' || c == '_' || c == '.' || c == '~'
  }

  predicate AllUnreserved(s: string) {
    forall k :: 0 <= k < |s| ==> Unreserved(s[k])
  }

  /** The UTF-8 encoding of one character. */
  function Utf8(c: char): (bytes: seq<nat>)
    ensures 1 <= |bytes| <= 4
    ensures forall k :: 0 <= k < |bytes| ==> bytes[k] < 256
    ensures (c as int < 0x80) <==> |bytes| == 1
    ensures |bytes| == 1 ==> bytes[0] == c as int
  {
    var n := c as int;
    if n < 0x80 then [n]
    else if n < 0x800 then [0xC0 + n / 0x40, 0x80 + n % 0x40]
    else if n < 0x1_0000 then [0xE0 + n / 0x1000, 0x80 + (n / 0x40) % 0x40, 0x80 + n % 0x40]
    else [0xF0 + n / 0x4_0000, 0x80 + (n / 0x1000) % 0x40, 0x80 + (n / 0x40) % 0x40, 0x80 + n % 0x40]
  }

  function HexDigit(d: nat): (c: char)
    requires d < 16
    ensures Unreserved(c)
  {
    "0123456789ABCDEF"[d]
  }

  /** `%XX` for every byte, with upper-case hexadecimal digits. */
  function PercentEncode(bytes: seq<nat>): (r: string)
    requires forall k :: 0 <= k < |bytes| ==> bytes[k] < 256
    ensures |r| == 3 * |bytes|
    ensures forall k :: 0 <= k < |r| ==> (Unreserved(r[k]) <==> k % 3 != 0)
    ensures forall k :: 0 <= k < |r| && k % 3 == 0 ==> r[k] == '%'
  {
    if bytes == [] then []
    else ['%', HexDigit(bytes[0] / 16), HexDigit(bytes[0] % 16)] + PercentEncode(bytes[1..])
  }

  /** How `QueryEscape` writes one character. */
  function EscapeChar(c: char): (r: string)
    ensures 1 <= |r|
    ensures Unreserved(c) <==> r == [c]
    ensures forall k :: 0 <= k < |r| ==> Unreserved(r[k]) || r[k] == '+' || r[k] == '%'
  {
    if Unreserved(c) then [c]
    else if c == ' ' then "+"
    else PercentEncode(Utf8(c))
  }

  /** `url.QueryEscape`: the result only holds unreserved characters, `+` and
      `%`, so neither `&` nor `=` can appear in an escaped key or value. */
  function QueryEscape(s: string): (r: string)
    ensures |r| >= |s|
    ensures forall k :: 0 <= k < |r| ==> Unreserved(r[k]) || r[k] == '+' || r[k] == '%'
  {
    if s == [] then [] else EscapeChar(s[0]) + QueryEscape(s[1..])
  }

  /** A string made of unreserved characters escapes to itself. */
  lemma {:induction false} EscapeUnreservedIsIdentity(s: string)
    requires AllUnreserved(s)
    ensures QueryEscape(s) == s
  {
    if s != [] {
      EscapeUnreservedIsIdentity(s[1..]);
      assert s == [s[0]] + s[1..];
    }
  }

  /** A reserved character is never written as itself. */
  lemma EscapeCharChanges(c: char)
    requires !Unreserved(c)
    ensures EscapeChar(c)[0] != c || |EscapeChar(c)| > 1
  {
  }

  /** Escaping changes every string that holds a reserved character. */
  lemma {:induction false} EscapeIdentityOnlyIfUnreserved(s: string)
    requires QueryEscape(s) == s
    ensures AllUnreserved(s)
  {
    if s != [] {
      assert QueryEscape(s) == EscapeChar(s[0]) + QueryEscape(s[1..]);
      if !Unreserved(s[0]) {
        EscapeCharChanges(s[0]);
        assert false;
      }
      assert QueryEscape(s[1..]) == s[1..];
      EscapeIdentityOnlyIfUnreserved(s[1..]);
    }
  }

  // Values and encoding

  /** `url.Values`: each key maps to its list of values. */
  type Values = map<string, seq<string>>

  /** `Values.Set`: the key now holds exactly the one value. */
  function Set(v: Values, key: string, value: string): (w: Values)
    ensures w.Keys == v.Keys + {key}
    ensures w[key] == [value]
    ensures forall k :: k in v && k != key ==> w[k] == v[k]
  {
    v[key := [value]]
  }

  /** `key=value` with both halves escaped. */
  function Pair(key: string, value: string): (r: string)
    ensures |r| >= 1
  {
    QueryEscape(key) + "=" + QueryEscape(value)
  }

  /** The pairs of one key, one per value, in list order. */
  function PairsOf(key: string, values: seq<string>): (r: seq<string>)
    ensures |r| == |values|
    ensures forall i :: 0 <= i < |r| ==> r[i] == Pair(key, values[i])
  {
    if values == [] then [] else [Pair(key, values[0])] + PairsOf(key, values[1..])
  }

  /** The pairs of the given keys, key by key. */
  function Pairs(keys: seq<string>, v: Values): seq<string>
    requires forall k :: k in keys ==> k in v
  {
    if keys == [] then [] else PairsOf(keys[0], v[keys[0]]) + Pairs(keys[1..], v)
  }

  /** The pieces separated by `sep`. */
  function Join(pieces: seq<string>, sep: char): string {
    if pieces == [] then ""
    else if |pieces| == 1 then pieces[0]
    else pieces[0] + [sep] + Join(pieces[1..], sep)
  }

  /** `Values.Encode`. */
  function Encode(v: Values): string {
    Join(Pairs(SortedKeys(v.Keys), v), '&')
  }

  /** Cutting a string at every `sep`. */
  function Split(s: string, sep: char): (r: seq<string>)
    ensures |r| >= 1
    decreases |s|
  {
    if s == [] then [""]
    else
      var rest := Split(s[1..], sep);
      if s[0] == sep then [""] + rest else [[s[0]] + rest[0]] + rest[1..]
  }

  lemma {:induction false} SplitPlain(s: string, sep: char)
    requires sep !in s
    ensures Split(s, sep) == [s]
  {
    if s != [] {
      SplitPlain(s[1..], sep);
      assert [s[0]] + s[1..] == s;
    }
  }

  lemma {:induction false} SplitAfterPlain(a: string, sep: char, b: string)
    requires sep !in a
    ensures Split(a + [sep] + b, sep) == [a] + Split(b, sep)
    decreases |a|
  {
    if a == [] {
      assert ([] + [sep] + b)[1..] == b;
    } else {
      assert (a + [sep] + b)[1..] == a[1..] + [sep] + b;
      SplitAfterPlain(a[1..], sep, b);
      assert [a[0]] + a[1..] == a;
    }
  }

  /** Splitting undoes joining when no piece holds the separator: the pairs of
      an encoded query can be read back one by one. */
  lemma {:induction false} SplitJoin(pieces: seq<string>, sep: char)
    requires pieces != []
    requires forall i :: 0 <= i < |pieces| ==> sep !in pieces[i]
    ensures Split(Join(pieces, sep), sep) == pieces
  {
    if |pieces| == 1 {
      SplitPlain(pieces[0], sep);
    } else {
      SplitAfterPlain(pieces[0], sep, Join(pieces[1..], sep));
      SplitJoin(pieces[1..], sep);
      assert [pieces[0]] + pieces[1..] == pieces;
    }
  }

  lemma {:induction false} EscapedHasNo(s: string, c: char)
    requires !Unreserved(c) && c != '+' && c != '%'
    ensures c !in QueryEscape(s)
  {
  }

  lemma {:induction false} PairsHaveNoAmpersand(keys: seq<string>, v: Values)
    requires forall k :: k in keys ==> k in v
    ensures forall i :: 0 <= i < |Pairs(keys, v)| ==> '&' !in Pairs(keys, v)[i]
  {
    if keys != [] {
      var head := PairsOf(keys[0], v[keys[0]]);
      forall i | 0 <= i < |head| ensures '&' !in head[i] {
        EscapedHasNo(keys[0], '&');
        EscapedHasNo(v[keys[0]][i], '&');
      }
      PairsHaveNoAmpersand(keys[1..], v);
    }
  }

  /** The encoded query splits at `&` into exactly its pairs, in key order. */
  lemma EncodeSplits(v: Values)
    requires Pairs(SortedKeys(v.Keys), v) != []
    ensures Split(Encode(v), '&') == Pairs(SortedKeys(v.Keys), v)
  {
    PairsHaveNoAmpersand(SortedKeys(v.Keys), v);
    SplitJoin(Pairs(SortedKeys(v.Keys), v), '&');
  }
}
