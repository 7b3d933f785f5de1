/**
 * The string operations of Go's standard library that the repository relies on
 * (strings.HasPrefix, strings.TrimPrefix, strings.Index, strings.Join,
 * strings.Split), and the byte-wise order in which the key-value store keeps its
 * keys. A Dafny char stands for one byte of a Go string.
 */
module Text {

  predicate HasPrefix(s: string, p: string)
  {
    |p| <= |s| && s[..|p|] == p
  }

  /** strings.TrimPrefix: drop `p` from the front of `s` when it is there. */
  function TrimPrefix(s: string, p: string): (r: string)
    ensures HasPrefix(s, p) ==> p + r == s
    ensures !HasPrefix(s, p) ==> r == s
  {
    if HasPrefix(s, p) then s[|p|..] else s
  }

  lemma TrimPrefixInverts(p: string, name: string)
    ensures TrimPrefix(p + name, p) == name
  {
    assert (p + name)[..|p|] == p;
  }

  /** `sub` occurs in `s` starting at byte `i`. */
  predicate OccursAt(s: string, sub: string, i: int)
  {
    0 <= i && i + |sub| <= |s| && s[i..i + |sub|] == sub
  }

  /** strings.Index: the first byte offset of `sub` in `s`, or -1. */
  function Index(s: string, sub: string): (r: int)
    ensures -1 <= r <= |s|
    ensures r >= 0 ==> OccursAt(s, sub, r)
    ensures r >= 0 ==> forall j :: 0 <= j < r ==> !OccursAt(s, sub, j)
    ensures r == -1 ==> forall j :: !OccursAt(s, sub, j)
  {
    IndexFrom(s, sub, 0)
  }

  function IndexFrom(s: string, sub: string, i: nat): (r: int)
    requires i <= |s|
    ensures r == -1 || i <= r <= |s|
    ensures r >= 0 ==> OccursAt(s, sub, r)
    ensures r >= 0 ==> forall j :: i <= j < r ==> !OccursAt(s, sub, j)
    ensures r == -1 ==> forall j :: i <= j ==> !OccursAt(s, sub, j)
    decreases |s| - i
  {
    if i + |sub| > |s| then -1
    else if s[i..i + |sub|] == sub then i
    else IndexFrom(s, sub, i + 1)
  }

  /** An occurrence found in a suffix is an occurrence in the whole string, shifted. */
  lemma OccursInSuffix(s: string, sub: string, k: nat, i: int)
    requires k <= |s|
    ensures OccursAt(s[k..], sub, i) <==> (i >= 0 && OccursAt(s, sub, k + i))
  {
    if i >= 0 && k + i + |sub| <= |s| {
      assert s[k..][i..i + |sub|] == s[k + i..k + i + |sub|];
    }
  }

  /** An occurrence inside a prefix is an occurrence in the whole string. */
  lemma OccursInPrefix(s: string, sub: string, k: nat, i: int)
    requires k <= |s|
    ensures OccursAt(s[..k], sub, i) <==> (OccursAt(s, sub, i) && i + |sub| <= k)
  {
    if 0 <= i && i + |sub| <= k {
      assert s[..k][i..i + |sub|] == s[i..i + |sub|];
    }
  }

  /** strings.Join. */
  function Join(parts: seq<string>, sep: string): (r: string)
    ensures parts == [] ==> r == []
    ensures |parts| == 1 ==> r == parts[0]
  {
    if parts == [] then []
    else if |parts| == 1 then parts[0]
    else parts[0] + sep + Join(parts[1..], sep)
  }

  lemma JoinAppend(parts: seq<string>, x: string, sep: string)
    requires parts != []
    ensures Join(parts + [x], sep) == Join(parts, sep) + sep + x
  {
    if |parts| > 1 {
      assert (parts + [x])[1..] == parts[1..] + [x];
      JoinAppend(parts[1..], x, sep);
    }
  }

  /** Number of occurrences of the byte `c` in `s`. */
  function Count(s: string, c: char): nat
  {
    if s == [] then 0 else (if s[0] == c then 1 else 0) + Count(s[1..], c)
  }

  /** strings.Split with a one-byte separator: every occurrence of `c` cuts. */
  function Split(s: string, c: char): (r: seq<string>)
    ensures |r| == Count(s, c) + 1
    ensures forall i :: 0 <= i < |r| ==> c !in r[i]
  {
    if s == [] then [[]]
    else
      var rest := Split(s[1..], c);
      if s[0] == c then [[]] + rest
      else [[s[0]] + rest[0]] + rest[1..]
  }

  /** Joining the pieces with the separator gives back the input. */
  lemma {:induction false} SplitJoin(s: string, c: char)
    ensures Join(Split(s, c), [c]) == s
  {
    if s != [] {
      var rest := Split(s[1..], c);
      SplitJoin(s[1..], c);
      if s[0] == c {
        assert Split(s, c) == [[]] + rest;
        assert Join([[]] + rest, [c]) == [] + [c] + Join(rest, [c]);
      } else {
        var r := Split(s, c);
        assert r == [[s[0]] + rest[0]] + rest[1..];
        if |rest| == 1 {
          assert Join(r, [c]) == [s[0]] + rest[0];
        } else {
          assert Join(rest, [c]) == rest[0] + [c] + Join(rest[1..], [c]);
          assert Join(r, [c]) == [s[0]] + rest[0] + [c] + Join(rest[1..], [c]);
        }
      }
    }
  }

  /** Splitting a join of separator-free pieces gives back the pieces. */
  lemma {:induction false} JoinSplit(parts: seq<string>, c: char)
    requires parts != []
    requires forall i :: 0 <= i < |parts| ==> c !in parts[i]
    ensures Split(Join(parts, [c]), c) == parts
  {
    if |parts| == 1 {
      NoSeparatorSplit(parts[0], c);
    } else {
      var rest := parts[1..];
      assert forall i :: 0 <= i < |rest| ==> rest[i] == parts[i + 1];
      JoinSplit(rest, c);
      assert Join(parts, [c]) == parts[0] + [c] + Join(rest, [c]);
      SplitConcat(parts[0], Join(rest, [c]), c);
      assert parts == [parts[0]] + rest;
    }
  }

  lemma {:induction false} NoSeparatorSplit(s: string, c: char)
    requires c !in s
    ensures Split(s, c) == [s]
  {
    if s != [] {
      NoSeparatorSplit(s[1..], c);
      assert [s[0]] + s[1..] == s;
    }
  }

  lemma {:induction false} SplitConcat(a: string, b: string, c: char)
    requires c !in a
    ensures Split(a + [c] + b, c) == [a] + Split(b, c)
  {
    if a == [] {
      assert [] + [c] + b == [c] + b;
      assert ([c] + b)[1..] == b;
    } else {
      assert (a + [c] + b)[1..] == a[1..] + [c] + b;
      SplitConcat(a[1..], b, c);
      assert [a[0]] + a[1..] == a;
    }
  }

  /** Byte-wise lexicographic order, the order in which the store returns keys. */
  predicate Lt(a: string, b: string)
    decreases |a|
  {
    if a == [] then b != []
    else if b == [] then false
    else if a[0] < b[0] then true
    else if a[0] == b[0] then Lt(a[1..], b[1..])
    else false
  }

  lemma {:induction false} LtIrreflexive(a: string)
    ensures !Lt(a, a)
  {
    if a != [] {
      LtIrreflexive(a[1..]);
    }
  }

  lemma {:induction false} LtTransitive(a: string, b: string, c: string)
    requires Lt(a, b) && Lt(b, c)
    ensures Lt(a, c)
    decreases |a|
  {
    if a != [] && a[0] == b[0] && b[0] == c[0] {
      LtTransitive(a[1..], b[1..], c[1..]);
    }
  }

  lemma {:induction false} LtAsymmetric(a: string, b: string)
    requires Lt(a, b)
    ensures !Lt(b, a)
    decreases |a|
  {
    if a != [] && a[0] == b[0] {
      LtAsymmetric(a[1..], b[1..]);
    }
  }

  lemma {:induction false} LtTotal(a: string, b: string)
    requires a != b
    ensures Lt(a, b) || Lt(b, a)
    decreases |a|
  {
    if a != [] && b != [] && a[0] == b[0] {
      assert a == [a[0]] + a[1..] && b == [b[0]] + b[1..];
      LtTotal(a[1..], b[1..]);
    }
  }

  /** Strictly ascending, so also free of duplicates: every key is below the next. */
  predicate Sorted(s: seq<string>)
  {
    |s| < 2 || (Lt(s[0], s[1]) && Sorted(s[1..]))
  }

  /** In an ascending list the first key is below every later one. */
  lemma {:induction false} SortedHead(s: seq<string>)
    requires Sorted(s) && s != []
    ensures forall x :: x in s[1..] ==> Lt(s[0], x)
  {
    if |s| >= 2 {
      SortedHead(s[1..]);
      forall x | x in s[1..] ensures Lt(s[0], x) {
        if x != s[1] {
          assert x in s[1..][1..];
          LtTransitive(s[0], s[1], x);
        }
      }
    }
  }

  /** An ascending list is ordered pairwise. */
  lemma {:induction false} SortedPairs(s: seq<string>)
    requires Sorted(s)
    ensures forall i, j :: 0 <= i < j < |s| ==> Lt(s[i], s[j])
  {
    if s != [] {
      SortedHead(s);
      SortedPairs(s[1..]);
      forall i, j | 0 <= i < j < |s| ensures Lt(s[i], s[j]) {
        if i == 0 {
          assert s[j] in s[1..];
        } else {
          assert s[i] == s[1..][i - 1] && s[j] == s[1..][j - 1];
        }
      }
    }
  }

  /** An ascending list names as many distinct keys as it has entries. */
  lemma {:induction false} SortedCard(s: seq<string>)
    requires Sorted(s)
    ensures |set x | x in s| == |s|
  {
    if s != [] {
      SortedCard(s[1..]);
      SortedHead(s);
      LtIrreflexive(s[0]);
      assert (set x | x in s) == {s[0]} + (set x | x in s[1..]);
    }
  }

  /** A list names at most as many distinct keys as it has entries. */
  lemma {:induction false} CardAtMost(s: seq<string>)
    ensures |set x | x in s| <= |s|
  {
    if s != [] {
      CardAtMost(s[1..]);
      assert (set x | x in s) == {s[0]} + (set x | x in s[1..]);
    }
  }

  /** An ascending list whose keys all occur in `t` is no longer than `t`. */
  lemma SortedWithin(s: seq<string>, t: seq<string>)
    requires Sorted(s) && forall x :: x in s ==> x in t
    ensures |s| <= |t|
  {
    SortedCard(s);
    CardAtMost(t);
    var a, b := set x | x in s, set x | x in t;
    assert b == a + (b - a);
    assert a !! (b - a);
  }

  /** Insert `k` into an ascending key list, keeping it ascending and duplicate-free. */
  function Insert(s: seq<string>, k: string): (r: seq<string>)
    ensures |r| == |s| || |r| == |s| + 1
  {
    if s == [] then [k]
    else if k == s[0] then s
    else if Lt(k, s[0]) then [k] + s
    else [s[0]] + Insert(s[1..], k)
  }

  /** Inserting adds exactly the new key. */
  lemma {:induction false} InsertMembers(s: seq<string>, k: string)
    ensures forall x :: x in Insert(s, k) <==> x in s || x == k
  {
    if s != [] && k != s[0] && !Lt(k, s[0]) {
      InsertMembers(s[1..], k);
      assert s == [s[0]] + s[1..];
    }
  }

  /** Inserting into an ascending list leaves it ascending. */
  lemma {:induction false} InsertSorted(s: seq<string>, k: string)
    requires Sorted(s)
    ensures Sorted(Insert(s, k))
  {
    if s != [] && k != s[0] {
      if Lt(k, s[0]) {
        assert ([k] + s)[1..] == s;
      } else {
        var t := Insert(s[1..], k);
        InsertSorted(s[1..], k);
        InsertMembers(s[1..], k);
        LtTotal(k, s[0]);
        SortedHead(s);
        assert t[0] in t;
        assert ([s[0]] + t)[1..] == t;
      }
    }
  }

  /**
   * The order of a sorted set's members of equal score: a member's key sits
   * in the set's index entry behind its length, so shorter keys come first
   * and keys of one length are in byte order.
   */
  predicate MemberLt(a: string, b: string)
  {
    |a| < |b| || (|a| == |b| && Lt(a, b))
  }

  lemma MemberLtTransitive(a: string, b: string, c: string)
    requires MemberLt(a, b) && MemberLt(b, c)
    ensures MemberLt(a, c)
  {
    if |a| == |b| == |c| {
      LtTransitive(a, b, c);
    }
  }

  lemma MemberLtTotal(a: string, b: string)
    requires a != b
    ensures MemberLt(a, b) || MemberLt(b, a)
  {
    if |a| == |b| {
      LtTotal(a, b);
    }
  }

  /** Strictly ascending in member order, so also free of duplicates. */
  predicate MemberSorted(s: seq<string>)
  {
    |s| < 2 || (MemberLt(s[0], s[1]) && MemberSorted(s[1..]))
  }

  /** In a list ascending in member order the first key is below every later one. */
  lemma {:induction false} MemberSortedHead(s: seq<string>)
    requires MemberSorted(s) && s != []
    ensures forall x :: x in s[1..] ==> MemberLt(s[0], x)
  {
    if |s| >= 2 {
      MemberSortedHead(s[1..]);
      forall x | x in s[1..] ensures MemberLt(s[0], x) {
        if x != s[1] {
          assert x in s[1..][1..];
          MemberLtTransitive(s[0], s[1], x);
        }
      }
    }
  }

  /** A list ascending in member order names no key twice. */
  lemma {:induction false} MemberSortedDistinct(s: seq<string>)
    requires MemberSorted(s)
    ensures forall i, j :: 0 <= i < j < |s| ==> s[i] != s[j]
  {
    if s != [] {
      MemberSortedHead(s);
      MemberSortedDistinct(s[1..]);
      forall i, j | 0 <= i < j < |s| ensures s[i] != s[j] {
        if i == 0 {
          assert s[j] in s[1..];
          LtIrreflexive(s[0]);
        } else {
          assert s[i] == s[1..][i - 1] && s[j] == s[1..][j - 1];
        }
      }
    }
  }

  /** Insert `k` into a sorted set's member list, keeping member order and no duplicates. */
  function InsertMember(s: seq<string>, k: string): (r: seq<string>)
    ensures |r| == |s| || |r| == |s| + 1
  {
    if s == [] then [k]
    else if k == s[0] then s
    else if MemberLt(k, s[0]) then [k] + s
    else [s[0]] + InsertMember(s[1..], k)
  }

  /** Inserting a member adds exactly that key. */
  lemma {:induction false} InsertMemberMembers(s: seq<string>, k: string)
    ensures forall x :: x in InsertMember(s, k) <==> x in s || x == k
  {
    if s != [] && k != s[0] && !MemberLt(k, s[0]) {
      InsertMemberMembers(s[1..], k);
      assert s == [s[0]] + s[1..];
    }
  }

  /** Inserting a member into a list ascending in member order leaves it ascending. */
  lemma {:induction false} InsertMemberSorted(s: seq<string>, k: string)
    requires MemberSorted(s)
    ensures MemberSorted(InsertMember(s, k))
  {
    if s != [] && k != s[0] {
      if MemberLt(k, s[0]) {
        assert ([k] + s)[1..] == s;
      } else {
        var t := InsertMember(s[1..], k);
        InsertMemberSorted(s[1..], k);
        InsertMemberMembers(s[1..], k);
        MemberLtTotal(k, s[0]);
        MemberSortedHead(s);
        assert t[0] in t;
        assert ([s[0]] + t)[1..] == t;
      }
    }
  }
}
