/** Cutting a file into erasure-coded shards and putting it together again. */
module Storage {
  import opened Prelude

  type Shard = seq<byte>

  datatype StorageError = InvalidPolicy | InvalidErasureCode | InsufficientShards | MissingDataShard

  /** The erasure-code library: which shard counts it accepts, the parity it computes, and what it rebuilds. */
  datatype Code = Code(
    accepts: (nat, nat) -> bool,
    parity: (nat, nat, seq<Shard>) -> seq<Shard>,
    rebuild: (nat, nat, seq<Option<Shard>>) -> Option<seq<Option<Shard>>>)

  predicate Uniform(shards: seq<Shard>, len: nat) {
    forall i :: 0 <= i < |shards| ==> |shards[i]| == len
  }

  function Zeros(n: nat): (z: Shard)
    ensures |z| == n && forall i :: 0 <= i < n ==> z[i] == 0
  {
    seq(n, _ => 0)
  }

  /** Some of the shards of `word`, in their places. */
  predicate Survives(left: seq<Option<Shard>>, word: seq<Shard>) {
    && |left| == |word|
    && forall i :: 0 <= i < |left| ==> left[i] == None || left[i] == Some(word[i])
  }

  function Present(left: seq<Option<Shard>>): nat {
    |set i | 0 <= i < |left| && left[i].Some?|
  }

  function AllPresent(word: seq<Shard>): (r: seq<Option<Shard>>)
    ensures |r| == |word| && forall i :: 0 <= i < |r| ==> r[i] == Some(word[i])
  {
    seq(|word|, i requires 0 <= i < |word| => Some(word[i]))
  }

  /** `d` shards of one length, not empty. */
  ghost predicate Regular(data: seq<Shard>, d: nat) {
    |data| == d && exists len: nat :: 1 <= len && Uniform(data, len)
  }

  /** What is assumed of the library: all-zero data has all-zero parity, there are `p` parity shards, exactly the sets of
      at least `d` surviving shards give the whole codeword back, and rebuilding keeps the number of places. */
  ghost predicate Erasure(code: Code) {
    && (forall d: nat, p: nat :: code.accepts(d, p) ==>
          code.parity(d, p, seq(d, _ => Zeros(1))) == seq(p, _ => Zeros(1)))
    && (forall d, p, data :: code.accepts(d, p) && Regular(data, d) ==> |code.parity(d, p, data)| == p)
    && (forall d, p, data, left ::
          (code.accepts(d, p) && Regular(data, d) && Survives(left, data + code.parity(d, p, data)))
          ==> code.rebuild(d, p, left)
              == if Present(left) >= d then Some(AllPresent(data + code.parity(d, p, data))) else None)
    && (forall d, p, left :: code.rebuild(d, p, left).Some? ==> |code.rebuild(d, p, left).value| == |left|)
  }

  function Copies(v: Shard, n: nat): (r: seq<Shard>)
    ensures |r| == n && forall i :: 0 <= i < n ==> r[i] == v
  {
    seq(n, _ => v)
  }

  function FirstPresent(left: seq<Option<Shard>>): (r: Option<Shard>)
    ensures r.None? <==> forall i :: 0 <= i < |left| ==> left[i].None?
    ensures r.Some? ==> r in left
  {
    if left == [] then None
    else if left[0].Some? then left[0]
    else
      assert left == [left[0]] + left[1..];
      FirstPresent(left[1..])
  }

  /** The smallest code of this kind: every shard a copy of the one data shard. */
  function CopyCode(): Code {
    Code(
      (d, p) => d == 1 && 0 < p,
      (d, p, data) => if |data| == 1 then Copies(data[0], p) else [],
      (d, p, left) =>
        match FirstPresent(left)
        case None => None
        case Some(v) => Some(AllPresent(Copies(v, |left|))))
  }

  lemma NonePresent(left: seq<Option<Shard>>)
    ensures Present(left) == 0 <==> FirstPresent(left).None?
  {
    var present := set i | 0 <= i < |left| && left[i].Some?;
    if FirstPresent(left).Some? {
      var i :| 0 <= i < |left| && left[i] == FirstPresent(left);
      assert i in present;
    } else {
      assert present == {};
    }
  }

  /** The assumptions about the library can be met. */
  lemma CopyCodeIsErasure()
    ensures Erasure(CopyCode()) && CopyCode().accepts(1, 2)
  {
    var code := CopyCode();
    forall d, p, data, left | code.accepts(d, p) && Regular(data, d) && Survives(left, data + code.parity(d, p, data))
      ensures code.rebuild(d, p, left)
           == if Present(left) >= d then Some(AllPresent(data + code.parity(d, p, data))) else None
    {
      var word := data + code.parity(d, p, data);
      assert forall i :: 0 <= i < |word| ==> word[i] == data[0];
      NonePresent(left);
      if FirstPresent(left).Some? {
        assert FirstPresent(left).value == data[0];
        assert Copies(data[0], |left|) == word;
      }
    }
    forall d: nat, p: nat | code.accepts(d, p)
      ensures code.parity(d, p, seq(d, _ => Zeros(1))) == seq(p, _ => Zeros(1))
    {
      assert Copies(Zeros(1), p) == seq(p, _ => Zeros(1));
    }
  }

  // ---- layout ----

  lemma DivCeilCovers(n: nat, d: nat)
    requires d > 0 && n > 0
    ensures DivCeil(n, d) > 0 && n <= d * DivCeil(n, d) < n + d
  {
    var m := n + d - 1;
    assert m == d * (m / d) + m % d;
  }

  function RowStart(len: nat, row: int): int {
    row * len
  }

  function RowOf(i: nat, len: nat): nat
    requires 0 < len
  {
    i / len
  }

  function ColumnOf(i: nat, len: nat): nat
    requires 0 < len
  {
    i % len
  }

  /** Row and column of a byte, and the byte of a row and column, are inverse. */
  lemma CellOf(i: nat, len: nat, row: nat, column: nat)
    requires 0 < len && column < len
    ensures i == RowStart(len, row) + column <==> RowOf(i, len) == row && ColumnOf(i, len) == column
  {
    assert i == len * (i / len) + i % len;
    if i == row * len + column {
      if i / len < row {
        MulMonotone(i / len + 1, row, len);
      } else if i / len > row {
        MulMonotone(row + 1, i / len, len);
      }
    }
  }

  lemma CellInRange(i: nat, d: nat, len: nat)
    requires 0 < len && i < RowStart(len, d)
    ensures RowOf(i, len) < d && ColumnOf(i, len) < len
  {
    CellOf(i, len, i / len, i % len);
    if i / len >= d {
      MulMonotone(d, i / len, len);
    }
  }

  lemma NextRow(len: nat, row: nat)
    ensures RowStart(len, row + 1) == RowStart(len, row) + len >= len
  {
    MulMonotone(0, row, len);
  }

  lemma RowsCover(n: nat, d: nat, total: nat)
    requires 0 < d <= total && 0 < n
    ensures 0 < DivCeil(n, d) && n <= RowStart(DivCeil(n, d), d) <= RowStart(DivCeil(n, d), total)
  {
    DivCeilCovers(n, d);
    MulMonotone(d, total, DivCeil(n, d));
  }

  function Cell(data: seq<byte>, i: int): byte {
    if 0 <= i < |data| then data[i] else 0
  }

  function Cells(data: seq<byte>, start: int, n: nat): (s: Shard)
    ensures |s| == n && forall k :: 0 <= k < n ==> s[k] == Cell(data, start + k)
  {
    if n == 0 then [] else Cells(data, start, n - 1) + [Cell(data, start + n - 1)]
  }

  function DataRow(data: seq<byte>, len: nat, row: nat): (s: Shard)
    ensures |s| == len && forall column :: 0 <= column < len ==> s[column] == Cell(data, RowStart(len, row) + column)
  {
    Cells(data, RowStart(len, row), len)
  }

  /** The data shards: the bytes in row-major order, zeros behind them. */
  function DataShards(data: seq<byte>, d: nat, len: nat): (s: seq<Shard>)
    ensures |s| == d && Uniform(s, len)
    ensures forall row :: 0 <= row < d ==> s[row] == DataRow(data, len, row)
  {
    seq(d, row requires 0 <= row < d => DataRow(data, len, row))
  }

  function ShardLength(data: seq<byte>, d: nat): nat
    requires d > 0
  {
    if data == [] then 1 else DivCeil(|data|, d)
  }

  /** Every byte lands in a data shard, at its row-major place. */
  lemma EveryByteIsStored(data: seq<byte>, d: nat, i: nat)
    requires 0 < d && i < |data|
    ensures var len := ShardLength(data, d);
            0 < len && i / len < d && DataShards(data, d, len)[i / len][i % len] == data[i]
  {
    var len := ShardLength(data, d);
    RowsCover(|data|, d, d);
    hide DivCeil, ShardLength, DataShards, DataRow, Cells, Uniform, RowStart;
    CellInRange(i, d, len);
    var row, column := RowOf(i, len), ColumnOf(i, len);
    CellOf(i, len, row, column);
    assert DataShards(data, d, len)[row] == DataRow(data, len, row);
  }

  function Concat(shards: seq<Shard>): Shard {
    if shards == [] then [] else Concat(shards[..|shards| - 1]) + shards[|shards| - 1]
  }

  lemma RowStartNat(len: nat, row: nat)
    ensures RowStart(len, row) >= 0 && (row == 0 ==> RowStart(len, row) == 0)
  {
    MulMonotone(0, row, len);
  }

  lemma {:induction false} ConcatDataShards(data: seq<byte>, d: nat, len: nat, rows: nat)
    requires rows <= d
    ensures RowStart(len, rows) >= 0
    ensures Concat(DataShards(data, d, len)[..rows]) == Cells(data, 0, RowStart(len, rows))
  {
    RowStartNat(len, rows);
    if rows > 0 {
      ConcatDataShards(data, d, len, rows - 1);
      NextRow(len, rows - 1);
      hide DataShards, Cells, Uniform, RowStart;
      var s := DataShards(data, d, len);
      assert s[..rows][..rows - 1] == s[..rows - 1];
      assert s[rows - 1] == Cells(data, RowStart(len, rows - 1), len);
      CellsJoin(data, RowStart(len, rows - 1), len);
    }
  }

  lemma CellsJoin(data: seq<byte>, m: nat, n: nat)
    ensures Cells(data, 0, m) + Cells(data, m, n) == Cells(data, 0, m + n)
  {
    hide Cells, Cell;
  }

  // ---- the two operations ----

  function EncodeShards(code: Code, data: seq<byte>, d: nat, p: nat): Result<seq<Shard>, StorageError> {
    if d == 0 || p == 0 then Err(InvalidPolicy)
    else if data == [] then Ok(seq(d + p, _ => Zeros(1)))
    else if !code.accepts(d, p) then Err(InvalidErasureCode)
    else
      var shards := DataShards(data, d, ShardLength(data, d));
      Ok(shards + code.parity(d, p, shards))
  }

  predicate HasNone(shards: seq<Option<Shard>>) {
    exists i :: 0 <= i < |shards| && shards[i] == None
  }

  function Values(shards: seq<Option<Shard>>): (r: seq<Shard>)
    requires !HasNone(shards)
    ensures |r| == |shards|
  {
    seq(|shards|, i requires 0 <= i < |shards| => assert shards[i] != None; shards[i].value)
  }

  function RecoverShards(code: Code, left: seq<Option<Shard>>, d: nat, p: nat): Result<Shard, StorageError> {
    if !code.accepts(d, p) then Err(InvalidErasureCode)
    else match code.rebuild(d, p, left)
      case None => Err(InsufficientShards)
      case Some(word) =>
        var rows := word[..Min(d, |word|)];
        if HasNone(rows) then Err(MissingDataShard) else Ok(Concat(Values(rows)))
  }

  /** The caller cuts the padding off at the size kept beside the shards. */
  function Truncated(bytes: Shard, size: nat): Shard {
    if size <= |bytes| then bytes[..size] else bytes
  }

  /** Encoding, to the byte: what it accepts, the length of the data shards, each of their bytes, and the parity behind
      them. */
  lemma EncodesExactly(code: Code, data: seq<byte>, d: nat, p: nat)
    ensures var r := EncodeShards(code, data, d, p);
            && (r.Ok? <==> 0 < d && 0 < p && (data == [] || code.accepts(d, p)))
            && (r.Err? ==> r.error == if d == 0 || p == 0 then InvalidPolicy else InvalidErasureCode)
            && (r.Ok? && data == [] ==> |r.value| == d + p && forall i :: 0 <= i < d + p ==> r.value[i] == [0])
            && (r.Ok? && data != [] ==>
                  var len := (|data| + d - 1) / d;
                  && |r.value| >= d && r.value[d..] == code.parity(d, p, r.value[..d])
                  && (forall row :: 0 <= row < d ==> |r.value[row]| == len)
                  && (forall row, i :: 0 <= row < d && 0 <= i < len ==>
                        r.value[row][i] == Cell(data, row * len + i)))
  {
    var r := EncodeShards(code, data, d, p);
    if r.Ok? && data != [] {
      var len := ShardLength(data, d);
      var shards := DataShards(data, d, len);
      assert r.value == shards + code.parity(d, p, shards);
      assert r.value[..d] == shards;
      hide DataRow, Cell;
      assert forall row :: 0 <= row < d ==> r.value[row] == DataRow(data, len, row);
      assert forall row: int :: RowStart(len, row) == row * len;
    }
  }

  /** An encoding is always the codeword of the data shards, also for the empty file, if the library takes the policy. */
  lemma EncodingIsCodeword(code: Code, data: seq<byte>, d: nat, p: nat)
    requires Erasure(code) && code.accepts(d, p) && EncodeShards(code, data, d, p).Ok?
    ensures var shards := DataShards(data, d, ShardLength(data, d));
            EncodeShards(code, data, d, p) == Ok(shards + code.parity(d, p, shards))
  {
    if data == [] {
      var shards := DataShards(data, d, 1);
      var zeros: seq<Shard> := seq(d, _ => Zeros(1));
      forall row | 0 <= row < d
        ensures shards[row] == zeros[row]
      {
        assert shards[row] == Zeros(1);
      }
      assert shards == zeros;
      assert code.parity(d, p, zeros) == seq(p, _ => Zeros(1));
      assert seq(d + p, _ => Zeros(1)) == zeros + seq(p, _ => Zeros(1));
    }
  }

  lemma WordRecovers(code: Code, data: seq<byte>, d: nat, p: nat, left: seq<Option<Shard>>)
    requires Erasure(code) && code.accepts(d, p) && 0 < d
    requires var shards := DataShards(data, d, ShardLength(data, d));
             Survives(left, shards + code.parity(d, p, shards))
    ensures RecoverShards(code, left, d, p)
         == if Present(left) >= d then Ok(Concat(DataShards(data, d, ShardLength(data, d))))
            else Err(InsufficientShards)
  {
    var shards := DataShards(data, d, ShardLength(data, d));
    hide DataShards, ShardLength;
    var word := shards + code.parity(d, p, shards);
    if Present(left) >= d {
      var rows := AllPresent(word)[..d];
      assert !HasNone(rows);
      assert Values(rows) == shards;
    }
  }

  /** The round trip, exactly: what was encoded comes back, after cutting at the original size, if and only if the
      library accepts the policy and at least `d` shards survive. The empty file under a policy that the library rejects
      is the one thing that is encoded and never recovered. */
  lemma RoundTripExactly(code: Code, data: seq<byte>, d: nat, p: nat, left: seq<Option<Shard>>)
    requires Erasure(code)
    requires EncodeShards(code, data, d, p).Ok? && Survives(left, EncodeShards(code, data, d, p).value)
    ensures RecoverShards(code, left, d, p).Ok? <==> code.accepts(d, p) && Present(left) >= d
    ensures RecoverShards(code, left, d, p).Ok? ==>
              var out := RecoverShards(code, left, d, p).value;
              Truncated(out, |data|) == data && out == data + Zeros(|out| - |data|)
  {
    if code.accepts(d, p) {
      EncodingIsCodeword(code, data, d, p);
      WordRecovers(code, data, d, p, left);
      var len := ShardLength(data, d);
      var shards := DataShards(data, d, len);
      assert shards[..d] == shards;
      ConcatDataShards(data, d, len, d);
      if data != [] {
        RowsCover(|data|, d, d);
      }
    }
  }

  /** The input that is lost: the empty file under a policy with shards of both kinds that the library rejects, whatever
      survives of it. */
  lemma EmptyFileIsLost(code: Code, d: nat, p: nat, left: seq<Option<Shard>>)
    requires 0 < d && 0 < p && !code.accepts(d, p)
    ensures EncodeShards(code, [], d, p).Ok? && RecoverShards(code, left, d, p).Err?
  {
  }

  // ---- the node's own policy ----

  const MIB4: nat := 4 * 1024 * 1024

  datatype Policy = Policy(dataShards: nat, parityShards: nat)

  function Clamp(x: nat, low: nat, high: nat): nat {
    Min(Max(x, low), high)
  }

  /** 45 percent data, the rest parity. */
  function CustomScaled(totalShards: nat): (p: Policy)
    ensures 0 < p.dataShards && 0 < p.parityShards
  {
    var total := Clamp(totalShards, 12, 100_000_000);
    Policy(total * 45 / 100, total - total * 45 / 100)
  }

  function ForFileSize(bytes: u64): Policy {
    CustomScaled(if bytes == 0 then 12
                 else Clamp(SatMul64(SatAdd64(bytes, MIB4 - 1) / MIB4, 12), 12, 1000))
  }

  /** A file of `g` started pieces of 4 MiB, one if it is empty, gets twelve shards for each, at most 1000 in all, of which
      45 percent rounded down hold data. */
  lemma PolicyForSize(bytes: u64, g: nat)
    requires 1 <= g && bytes <= g * 4_194_304 && (g == 1 || (g - 1) * 4_194_304 < bytes)
    ensures var p := ForFileSize(bytes);
            var total := p.dataShards + p.parityShards;
            && total == (if g <= 83 then 12 * g else 1000)
            && 100 * p.dataShards <= 45 * total < 100 * (p.dataShards + 1)
  {
    var pieces := SatAdd64(bytes, MIB4 - 1) / MIB4;
    if bytes > 0 && bytes + MIB4 - 1 <= U64_MAX {
      assert pieces == g;
    }
  }

  /** A code over bytes has room for 256 shards. */
  ghost predicate OverBytes(code: Code) {
    forall d: nat, p: nat :: code.accepts(d, p) <==> 0 < d && 0 < p && d + p <= 256
  }

  /** The policy chosen for a file's size works exactly up to 84 MiB with a code over bytes; every larger file is
      refused. */
  lemma OwnPolicyWorksUpTo84MiB(code: Code, data: seq<byte>)
    requires OverBytes(code) && |data| <= U64_MAX
    ensures var p := ForFileSize(|data|);
            && (EncodeShards(code, data, p.dataShards, p.parityShards).Ok? <==> |data| <= 84 * 1024 * 1024)
            && (EncodeShards(code, data, p.dataShards, p.parityShards).Err? ==>
                  EncodeShards(code, data, p.dataShards, p.parityShards).error == InvalidErasureCode)
  {
    hide DataShards, DivCeil;
  }

  // ---- the code ----

  lemma NextCell(data: seq<byte>, i: nat, len: nat, row: nat, column: nat)
    requires i < |data| && 0 < len && column < len
    ensures Cell(data[..i + 1], RowStart(len, row) + column)
         == if row == RowOf(i, len) && column == ColumnOf(i, len) then data[i]
            else Cell(data[..i], RowStart(len, row) + column)
  {
    CellOf(i, len, row, column);
    hide RowStart, RowOf, ColumnOf;
  }

  /** Byte by byte into a zeroed table, parity rows left at zero. */
  method FillShards(data: seq<byte>, d: nat, p: nat) returns (table: array2<byte>)
    requires 0 < d && data != []
    ensures fresh(table) && table.Length0 == d + p && table.Length1 == ShardLength(data, d)
    ensures forall row, column :: 0 <= row < d + p && 0 <= column < table.Length1 ==>
              table[row, column] == Cell(data, RowStart(table.Length1, row) + column)
  {
    var len := DivCeil(|data|, d);
    RowsCover(|data|, d, d + p);
    assert forall i :: Cell(data[..0], i) == 0;
    hide DivCeil, Cell, RowStart, RowOf, ColumnOf;
    table := new byte[d + p, len]((_, _) => 0);
    for i := 0 to |data|
      invariant forall row, column :: 0 <= row < d + p && 0 <= column < len ==>
                  table[row, column] == Cell(data[..i], RowStart(len, row) + column)
    {
      CellInRange(i, d + p, len);
      table[RowOf(i, len), ColumnOf(i, len)] := data[i];
      forall row, column | 0 <= row < d + p && 0 <= column < len
        ensures table[row, column] == Cell(data[..i + 1], RowStart(len, row) + column)
      {
        NextCell(data, i, len, row, column);
      }
    }
    assert data[..|data|] == data;
  }

  method EncodeFile(code: Code, data: seq<byte>, d: nat, p: nat) returns (r: Result<seq<Shard>, StorageError>)
    ensures r == EncodeShards(code, data, d, p)
  {
    if d == 0 || p == 0 {
      return Err(InvalidPolicy);
    }
    if data == [] {
      return Ok(seq(d + p, _ => Zeros(1)));
    }
    var table := FillShards(data, d, p);
    if !code.accepts(d, p) {
      return Err(InvalidErasureCode);
    }
    var shards := [];
    for row := 0 to d
      invariant |shards| == row
      invariant forall k :: 0 <= k < row ==> shards[k] == DataShards(data, d, table.Length1)[k]
    {
      var shard := [];
      for column := 0 to table.Length1
        invariant |shard| == column
        invariant forall k :: 0 <= k < column ==> shard[k] == table[row, k]
      {
        shard := shard + [table[row, column]];
      }
      shards := shards + [shard];
    }
    assert shards == DataShards(data, d, table.Length1);
    r := Ok(shards + code.parity(d, p, shards));
  }

  /** The missing shards are filled in before the data shards are joined. */
  method RecoverFile(code: Code, shards: array<Option<Shard>>, d: nat, p: nat)
    returns (r: Result<Shard, StorageError>)
    requires Erasure(code)
    modifies shards
    ensures r == RecoverShards(code, old(shards[..]), d, p)
    ensures code.accepts(d, p) && code.rebuild(d, p, old(shards[..])).Some? ==>
              shards[..] == code.rebuild(d, p, old(shards[..])).value
  {
    if !code.accepts(d, p) {
      return Err(InvalidErasureCode);
    }
    var rebuilt := code.rebuild(d, p, shards[..]);
    if rebuilt.None? {
      return Err(InsufficientShards);
    }
    var word := rebuilt.value;
    assert |word| == shards.Length;
    forall i | 0 <= i < shards.Length {
      shards[i] := word[i];
    }
    assert shards[..] == word;
    var out := [];
    var rows := Min(d, shards.Length);
    for i := 0 to rows
      invariant shards[..] == word && !HasNone(word[..i]) && out == Concat(Values(word[..i]))
    {
      assert word[..rows][i] == word[i] == shards[i];
      if shards[i].None? {
        return Err(MissingDataShard);
      }
      out := out + shards[i].value;
      assert !HasNone(word[..i + 1]);
      assert Values(word[..i + 1])[..i] == Values(word[..i]);
    }
    r := Ok(out);
  }
}
