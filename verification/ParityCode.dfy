/** A code with any number of data shards and one parity shard: the assumptions about the library can be met. */
module ParityCode {
  import opened Prelude
  import opened Storage

  /** The byte of a shard that is there, or zero. */
  function ByteOf(left: seq<Option<Shard>>, k: nat, j: nat): byte {
    if k < |left| && left[k].Some? && j < |left[k].value| then left[k].value[j] else 0
  }

  /** Column `j` of the first `n` shards, added up. */
  function Column(left: seq<Option<Shard>>, n: nat, j: nat): nat {
    if n == 0 then 0 else Column(left, n - 1, j) + ByteOf(left, n - 1, j)
  }

  function FirstNone(left: seq<Option<Shard>>): (i: nat)
    ensures i <= |left| && (i < |left| ==> left[i].None?) && forall k :: 0 <= k < i ==> left[k].Some?
  {
    if left == [] then 0
    else
      var last := |left| - 1;
      var i := FirstNone(left[..last]);
      if i < last then i else if left[last].None? then last else |left|
  }

  /** What shard `i` must have at `j`: the sum of the data, or what the parity lacks of it. */
  function Lacking(left: seq<Option<Shard>>, i: nat, j: nat): byte
    requires left != []
  {
    var last := |left| - 1;
    if i == last then Column(left, last, j) % 256 else (ByteOf(left, last, j) - Column(left, last, j)) % 256
  }

  function LackingShard(left: seq<Option<Shard>>, i: nat, len: nat): (s: Shard)
    requires left != []
    ensures |s| == len && forall j :: 0 <= j < len ==> s[j] == Lacking(left, i, j)
  {
    if len == 0 then [] else LackingShard(left, i, len - 1) + [Lacking(left, i, len - 1)]
  }

  function LengthOf(left: seq<Option<Shard>>, i: nat): nat {
    var k := if i == 0 then 1 else 0;
    if k < |left| && left[k].Some? then |left[k].value| else 0
  }

  /** With one shard missing, it is computed; with more, nothing is. */
  function Rebuild(d: nat, left: seq<Option<Shard>>): (r: Option<seq<Option<Shard>>>)
    ensures r.Some? ==> |r.value| == |left|
  {
    if |left| != d + 1 || Present(left) < d then None
    else
      var i := FirstNone(left);
      Some(if i == |left| then left else left[i := Some(LackingShard(left, i, LengthOf(left, i)))])
  }

  function Parity(data: seq<Shard>): Shard {
    var left := AllPresent(data) + [None];
    LackingShard(left, |data|, if data == [] then 0 else |data[0]|)
  }

  function SingleParity(): Code {
    Code(
      (d, p) => 0 < d && p == 1,
      (d, p, data) => [Parity(data)],
      (d, p, left) => Rebuild(d, left))
  }

  // ---- it is a code ----

  function Indices(n: nat): (r: set<nat>)
    ensures |r| == n && forall j: nat :: j in r <==> j < n
  {
    if n == 0 then {} else Indices(n - 1) + {n - 1}
  }

  lemma PairOut(s: set<nat>, i: nat, k: nat)
    requires i in s && k in s && i != k
    ensures |s - {i, k}| == |s| - 2
  {
    assert s - {i, k} == s - {i} - {k};
  }

  /** With all but one shard there, the first missing one is the only one. */
  lemma OneMissing(left: seq<Option<Shard>>, k: nat)
    requires Present(left) + 1 >= |left| && k < |left| && left[k].None?
    ensures k == FirstNone(left)
  {
    var i := FirstNone(left);
    if i != k {
      var present := set j | 0 <= j < |left| && left[j].Some?;
      PairOut(Indices(|left|), i, k);
      SubsetSize(present, Indices(|left|) - {i, k});
    }
  }

  /** Leaving out one of the summed shards takes its byte off the column. */
  lemma {:induction false} ColumnWithout(
      left: seq<Option<Shard>>, word: seq<Option<Shard>>, n: nat, i: nat, j: nat)
    requires n <= |left| == |word| && i < |left| && left[i].None?
    requires forall k :: 0 <= k < |left| && k != i ==> left[k] == word[k]
    ensures Column(left, n, j) == Column(word, n, j) - (if i < n then ByteOf(word, i, j) else 0)
  {
    if n > 0 {
      ColumnWithout(left, word, n - 1, i, j);
    }
  }

  lemma {:induction false} ColumnSame(x: seq<Option<Shard>>, y: seq<Option<Shard>>, n: nat, j: nat)
    requires n <= |x| && n <= |y| && forall k :: 0 <= k < n ==> x[k] == y[k]
    ensures Column(x, n, j) == Column(y, n, j)
  {
    if n > 0 {
      ColumnSame(x, y, n - 1, j);
    }
  }

  lemma Recovered(total: nat, part: byte)
    requires part <= total
    ensures (total % 256 - (total - part)) % 256 == part
  {
    assert total == 256 * (total / 256) + total % 256;
    assert total % 256 - (total - part) == part - 256 * (total / 256);
    Shifted(part, total / 256);
  }

  lemma Shifted(part: byte, k: nat)
    ensures (part - 256 * k) % 256 == part
  {
  }

  lemma ColumnCovers(left: seq<Option<Shard>>, n: nat, i: nat, j: nat)
    requires i < n
    ensures ByteOf(left, i, j) <= Column(left, n, j)
  {
    if i < n - 1 {
      ColumnCovers(left, n - 1, i, j);
    }
  }

  lemma ParityByte(data: seq<Shard>, len: nat, j: nat)
    requires data != [] && Uniform(data, len) && j < len
    ensures |Parity(data)| == len
    ensures Parity(data)[j] == Column(AllPresent(data + [Parity(data)]), |data|, j) % 256
  {
    ColumnSame(AllPresent(data) + [None], AllPresent(data + [Parity(data)]), |data|, j);
  }

  lemma LackingIsIt(data: seq<Shard>, len: nat, left: seq<Option<Shard>>, i: nat, j: nat)
    requires data != [] && Uniform(data, len) && 1 <= len && j < len && i < |left|
    requires Survives(left, data + [Parity(data)]) && left[i].None?
    requires forall k :: 0 <= k < |left| && k != i ==> left[k].Some?
    ensures |(data + [Parity(data)])[i]| == len && Lacking(left, i, j) == (data + [Parity(data)])[i][j]
  {
    var word := AllPresent(data + [Parity(data)]);
    ParityByte(data, len, j);
    hide Parity;
    ColumnWithout(left, word, |data|, i, j);
    if i < |data| {
      ColumnCovers(word, |data|, i, j);
      hide Column;
      Recovered(Column(word, |data|, j), ByteOf(word, i, j));
    }
  }

  lemma ParityRebuilds(data: seq<Shard>, len: nat, left: seq<Option<Shard>>)
    requires data != [] && Uniform(data, len) && 1 <= len && Survives(left, data + [Parity(data)])
    ensures Rebuild(|data|, left)
         == if Present(left) >= |data| then Some(AllPresent(data + [Parity(data)])) else None
  {
    if Present(left) >= |data| {
      var word, i := data + [Parity(data)], FirstNone(left);
      forall k | 0 <= k < |left| && k != i
        ensures left[k].Some?
      {
        if left[k].None? {
          OneMissing(left, k);
        }
      }
      ParityByte(data, len, 0);
      if i < |left| {
        hide Parity, Present, Lacking;
        assert LengthOf(left, i) == len;
        forall j | 0 <= j < len
          ensures |word[i]| == len && Lacking(left, i, j) == word[i][j]
        {
          LackingIsIt(data, len, left, i, j);
        }
        assert LackingShard(left, i, len) == word[i];
      }
      assert Rebuild(|data|, left).value == AllPresent(word);
    }
  }

  lemma {:induction false} ZeroColumn(left: seq<Option<Shard>>, n: nat)
    requires n <= |left| && forall k :: 0 <= k < n ==> left[k] == Some(Zeros(1))
    ensures Column(left, n, 0) == 0
  {
    if n > 0 {
      ZeroColumn(left, n - 1);
    }
  }

  lemma ZeroParity(d: nat)
    requires d > 0
    ensures Parity(seq(d, _ => Zeros(1))) == Zeros(1)
  {
    var data: seq<Shard> := seq(d, _ => Zeros(1));
    var left := AllPresent(data) + [None];
    ZeroColumn(left, d);
    assert Parity(data) == LackingShard(left, d, 1);
  }

  /** Codes with any number of data shards meet everything that is assumed of the library. */
  lemma SingleParityIsErasure()
    ensures Erasure(SingleParity()) && forall d: nat :: 0 < d ==> SingleParity().accepts(d, 1)
  {
    hide Rebuild, Parity, Present;
    var code := SingleParity();
    forall d, p, data, left | code.accepts(d, p) && Regular(data, d) && Survives(left, data + code.parity(d, p, data))
      ensures code.rebuild(d, p, left)
           == if Present(left) >= d then Some(AllPresent(data + code.parity(d, p, data))) else None
    {
      var len: nat :| 1 <= len && Uniform(data, len);
      ParityRebuilds(data, len, left);
    }
    forall d: nat, p: nat | code.accepts(d, p)
      ensures code.parity(d, p, seq(d, _ => Zeros(1))) == seq(p, _ => Zeros(1))
    {
      ZeroParity(d);
      assert [Zeros(1)] == seq(1, _ => Zeros(1));
    }
  }
}
