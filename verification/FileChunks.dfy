/** Oversized call data: the file it is stored in, and the fee estimated for doing so. */
module FileChunks {
  import opened Prelude

  type Hex = seq<char>

  /** The SDK splits what is appended into chunks of the given size. */
  function Chunks(contents: Hex, chunkSize: nat): seq<Hex>
    requires chunkSize > 0
    decreases |contents|
  {
    if contents == [] then []
    else if |contents| <= chunkSize then [contents]
    else [contents[..chunkSize]] + Chunks(contents[chunkSize..], chunkSize)
  }

  function Flatten(chunks: seq<Hex>): Hex {
    if chunks == [] then [] else chunks[0] + Flatten(chunks[1..])
  }

  /** The transactions of `createFile`: what the file is created with, and what is appended. */
  datatype FileTransactions = FileTransactions(create: Hex, appends: seq<Hex>)

  /** `callDataLength` is in bytes, and the hex text of the call data is twice as long. */
  function CreateFile(hex: Hex, callDataLength: nat, chunkSize: nat): FileTransactions
    requires chunkSize > 0
  {
    var cut := if |hex| < chunkSize then |hex| else chunkSize;
    FileTransactions(hex[..cut], if callDataLength > chunkSize then Chunks(hex[cut..], chunkSize) else [])
  }

  function Contents(t: FileTransactions): Hex {
    t.create + Flatten(t.appends)
  }

  /** Call data goes into a file only when it is larger than a chunk and jumbo transactions are off. */
  predicate UsesFile(jumboTxEnabled: bool, callDataLength: nat, chunkSize: nat) {
    !(jumboTxEnabled || callDataLength <= chunkSize)
  }

  lemma {:induction false} ChunksHead(contents: Hex, chunkSize: nat)
    requires 0 < chunkSize <= |contents|
    ensures Chunks(contents, chunkSize) == [contents[..chunkSize]] + Chunks(contents[chunkSize..], chunkSize)
  {
    if |contents| == chunkSize {
      assert contents[..chunkSize] == contents;
    }
  }

  lemma {:induction false} FlattenHead(c: Hex, rest: seq<Hex>)
    ensures Flatten([c] + rest) == c + Flatten(rest)
  {
    assert ([c] + rest)[1..] == rest;
  }

  lemma {:induction false} FlattenOne(c: Hex)
    ensures Flatten([c]) == c
  {
    FlattenHead(c, []);
    assert [c] + [] == [c];
  }

  lemma {:induction false} ChunksLossless(contents: Hex, chunkSize: nat)
    requires chunkSize > 0
    ensures Flatten(Chunks(contents, chunkSize)) == contents
    decreases |contents|
  {
    if |contents| >= chunkSize {
      ChunksHead(contents, chunkSize);
      ChunksLossless(contents[chunkSize..], chunkSize);
      FlattenHead(contents[..chunkSize], Chunks(contents[chunkSize..], chunkSize));
    } else if contents != [] {
      FlattenOne(contents);
    }
  }

  /** No transaction is empty or larger than a chunk. */
  lemma {:induction false} ChunksFit(contents: Hex, chunkSize: nat)
    requires chunkSize > 0
    ensures forall c <- Chunks(contents, chunkSize) :: 0 < |c| <= chunkSize
    decreases |contents|
  {
    if |contents| >= chunkSize {
      ChunksHead(contents, chunkSize);
      ChunksFit(contents[chunkSize..], chunkSize);
    }
  }

  /** The file holds the whole call data exactly when it fits one chunk as hex or is longer than one as bytes. */
  lemma {:induction false} FileLosslessIff(hex: Hex, callDataLength: nat, chunkSize: nat)
    requires chunkSize > 0 && |hex| == 2 * callDataLength
    ensures Contents(CreateFile(hex, callDataLength, chunkSize)) == hex <==>
      callDataLength > chunkSize || 2 * callDataLength <= chunkSize
  {
    var cut := if |hex| < chunkSize then |hex| else chunkSize;
    ChunksLossless(hex[cut..], chunkSize);
    assert hex == hex[..cut] + hex[cut..];
    assert hex[..cut] + [] == hex[..cut];
  }

  /** What `submitEthereumTransaction` sends: the call data itself, or a file it is stored in. */
  datatype Submission = Submission(inline: Hex, file: Option<FileTransactions>)

  function Submit(hex: Hex, callDataLength: nat, chunkSize: nat, jumboTxEnabled: bool): Submission
    requires chunkSize > 0
  {
    if UsesFile(jumboTxEnabled, callDataLength, chunkSize) then
      Submission([], Some(CreateFile(hex, callDataLength, chunkSize)))
    else Submission(hex, None)
  }

  /** Nothing is lost on either way, and the file is used exactly for data longer than a chunk without jumbo transactions. */
  lemma {:induction false} SubmissionIsLossless(hex: Hex, callDataLength: nat, chunkSize: nat, jumboTxEnabled: bool)
    requires chunkSize > 0 && |hex| == 2 * callDataLength
    ensures var s := Submit(hex, callDataLength, chunkSize, jumboTxEnabled);
      && (s.file.Some? <==> !jumboTxEnabled && callDataLength > chunkSize)
      && (s.file.None? ==> s.inline == hex)
      && (s.file.Some? ==>
            && s.inline == [] && s.file.value.create + Flatten(s.file.value.appends) == hex
            && |s.file.value.create| == chunkSize
            && (forall c <- s.file.value.appends :: 0 < |c| <= chunkSize))
  {
    if !jumboTxEnabled && callDataLength > chunkSize {
      FileLosslessIff(hex, callDataLength, chunkSize);
      ChunksFit(hex[chunkSize..], chunkSize);
    }
  }

  /** Everything `submitEthereumTransaction` sends to `createFile` is stored whole. */
  lemma {:induction false} SubmittedDataIsLossless(hex: Hex, callDataLength: nat, chunkSize: nat, jumboTxEnabled: bool)
    requires chunkSize > 0 && |hex| == 2 * callDataLength && UsesFile(jumboTxEnabled, callDataLength, chunkSize)
    ensures Contents(CreateFile(hex, callDataLength, chunkSize)) == hex
  {
    FileLosslessIff(hex, callDataLength, chunkSize);
  }

  // ---------- the fee estimate, in ten-thousandths of a cent ----------

  const FILE_CREATE_PER_5_KB := 95100
  const FILE_APPEND_PER_5_KB := 95500
  const FILE_APPEND_BASE_FEE := 39000
  const FILE_APPEND_RATE_PER_BYTE := 11

  /** `estimateFileTransactionsFee` before the conversion to tinybars. */
  function EstimatedFee(size: nat, chunkSize: nat): int
    requires chunkSize > 0
  {
    FILE_CREATE_PER_5_KB
    + FILE_APPEND_PER_5_KB * (size / chunkSize - 1)
    + FILE_APPEND_BASE_FEE + size % chunkSize * FILE_APPEND_RATE_PER_BYTE
  }

  /** The estimate grows by the append fee with each further chunk and by the rate with each further byte in between. */
  lemma {:induction false} EstimateSteps(size: nat, chunkSize: nat)
    requires chunkSize > 0
    ensures EstimatedFee(chunkSize, chunkSize) == 95100 + 39000
    ensures EstimatedFee(size + chunkSize, chunkSize) == EstimatedFee(size, chunkSize) + 95500
    ensures (size + 1) % chunkSize != 0 ==> EstimatedFee(size + 1, chunkSize) == EstimatedFee(size, chunkSize) + 11
  {
    QuotientUnique(chunkSize, chunkSize, 1, 0);
    DivStep(size, chunkSize);
    Distribute(95500, size / chunkSize, 0);
    if (size + 1) % chunkSize != 0 {
      NextByte(size, chunkSize);
    }
  }

  lemma {:induction false} NextByte(size: nat, chunkSize: nat)
    requires chunkSize > 0 && (size + 1) % chunkSize != 0
    ensures (size + 1) / chunkSize == size / chunkSize && (size + 1) % chunkSize == size % chunkSize + 1
  {
    var q, r := size / chunkSize, size % chunkSize;
    assert size == q * chunkSize + r;
    if r + 1 == chunkSize {
      OneMore(q, chunkSize);
      QuotientUnique(size + 1, chunkSize, q + 1, 0);
    } else {
      QuotientUnique(size + 1, chunkSize, q, r + 1);
    }
  }

  function AppendCost(size: nat): int {
    FILE_APPEND_BASE_FEE + size * FILE_APPEND_RATE_PER_BYTE
  }

  function AppendsCost(chunks: seq<Hex>): int {
    if chunks == [] then 0 else AppendCost(|chunks[0]|) + AppendsCost(chunks[1..])
  }

  /** The linear rate model: a fixed price to create, base fee plus rate for each appended chunk. */
  function ActualCost(t: FileTransactions): int {
    FILE_CREATE_PER_5_KB + AppendsCost(t.appends)
  }

  /** The cost of appending `n` characters: full chunks, and what remains. */
  function ClosedCost(n: nat, chunkSize: nat): int
    requires chunkSize > 0
  {
    (n / chunkSize) * AppendCost(chunkSize) + (if n % chunkSize == 0 then 0 else AppendCost(n % chunkSize))
  }

  lemma {:induction false} ClosedStep(n: nat, chunkSize: nat)
    requires chunkSize > 0
    ensures ClosedCost(n + chunkSize, chunkSize) == AppendCost(chunkSize) + ClosedCost(n, chunkSize)
  {
    DivStep(n, chunkSize);
    OneMore(n / chunkSize, AppendCost(chunkSize));
  }

  lemma {:induction false} OneMore(q: int, a: int)
    ensures (q + 1) * a == a + q * a
  {}

  lemma {:induction false} ClosedSmall(n: nat, chunkSize: nat)
    requires n < chunkSize
    ensures ClosedCost(n, chunkSize) == if n == 0 then 0 else AppendCost(n)
  {
    QuotientUnique(n, chunkSize, 0, n);
  }

  lemma {:induction false} CostHead(c: Hex, rest: seq<Hex>)
    ensures AppendsCost([c] + rest) == AppendCost(|c|) + AppendsCost(rest)
  {
    assert ([c] + rest)[1..] == rest;
  }

  /** The cost of the appended chunks in closed form. */
  lemma {:induction false} AppendsClosed(contents: Hex, chunkSize: nat)
    requires chunkSize > 0
    ensures AppendsCost(Chunks(contents, chunkSize)) == ClosedCost(|contents|, chunkSize)
    decreases |contents|
  {
    if |contents| >= chunkSize {
      var rest := contents[chunkSize..];
      AppendsClosed(rest, chunkSize);
      ChunksHead(contents, chunkSize);
      CostHead(contents[..chunkSize], Chunks(rest, chunkSize));
      ClosedStep(|rest|, chunkSize);
    } else {
      ClosedSmall(|contents|, chunkSize);
      CostHead(contents, []);
      assert [contents] + [] == [contents];
    }
  }

  lemma {:induction false} DivStep(n: nat, d: nat)
    requires d > 0
    ensures (n + d) / d == n / d + 1 && (n + d) % d == n % d
  {
    var q, r := n / d, n % d;
    assert n + d == (q + 1) * d + r;
    QuotientUnique(n + d, d, q + 1, r);
  }

  lemma {:induction false} Scaled(a: int, b: int, d: int)
    requires a < b && d >= 0
    ensures a * d + d <= b * d
  {
    NonNegative(b - a - 1, d);
    Distribute(d, b, a + 1);
    OneMore(a, d);
  }

  lemma {:induction false} QuotientUnique(n: nat, d: nat, q: nat, r: nat)
    requires r < d && n == q * d + r
    ensures n / d == q && n % d == r
  {
    var q', r' := n / d, n % d;
    assert n == q' * d + r';
    if q' > q {
      Scaled(q, q', d);
    } else if q' < q {
      Scaled(q', q, d);
    }
  }

  /** What the estimate has to spare: the rounding of each full chunk, and a base fee when nothing is left over. */
  lemma {:induction false} EstimateMinusCost(hex: Hex, chunkSize: nat)
    requires chunkSize > 0 && |hex| > 2 * chunkSize && |hex| % 2 == 0
    ensures EstimatedFee(|hex|, chunkSize) - ActualCost(CreateFile(hex, |hex| / 2, chunkSize))
      == (|hex| / chunkSize - 1) * (FILE_APPEND_PER_5_KB - AppendCost(chunkSize))
         + (if |hex| % chunkSize == 0 then FILE_APPEND_BASE_FEE else 0)
  {
    var rest := hex[chunkSize..];
    AppendsClosed(rest, chunkSize);
    DivStep(|rest|, chunkSize);
    assert |rest| + chunkSize == |hex|;
    var q, full := |rest| / chunkSize, AppendCost(chunkSize);
    assert |hex| / chunkSize - 1 == q && |hex| % chunkSize == |rest| % chunkSize;
    Distribute(q, FILE_APPEND_PER_5_KB, full);
    assert |hex| / 2 > chunkSize;
    assert CreateFile(hex, |hex| / 2, chunkSize).appends == Chunks(rest, chunkSize);
  }

  lemma {:induction false} Distribute(q: int, a: int, b: int)
    ensures q * (a - b) == a * q - q * b
  {}

  /** The estimate covers the cost of every file exactly for chunk sizes up to 5136 bytes. */
  lemma {:induction false} EstimateIsUpperBoundIff(chunkSize: nat)
    requires chunkSize > 0
    ensures chunkSize <= 5136 <==> forall hex: Hex :: |hex| > 2 * chunkSize && |hex| % 2 == 0 ==>
      EstimatedFee(|hex|, chunkSize) >= ActualCost(CreateFile(hex, |hex| / 2, chunkSize))
  {
    if chunkSize <= 5136 {
      forall hex: Hex | |hex| > 2 * chunkSize && |hex| % 2 == 0
        ensures EstimatedFee(|hex|, chunkSize) >= ActualCost(CreateFile(hex, |hex| / 2, chunkSize))
      {
        EstimateCovers(hex, chunkSize);
      }
    } else {
      var hex: Hex := seq(2 * chunkSize + 2, _ => '0');
      QuotientUnique(|hex|, chunkSize, 2, 2);
      EstimateMinusCost(hex, chunkSize);
    }
  }

  lemma {:induction false} EstimateCovers(hex: Hex, chunkSize: nat)
    requires 0 < chunkSize <= 5136 && |hex| > 2 * chunkSize && |hex| % 2 == 0
    ensures EstimatedFee(|hex|, chunkSize) >= ActualCost(CreateFile(hex, |hex| / 2, chunkSize))
  {
    EstimateMinusCost(hex, chunkSize);
    DivStep(|hex| - chunkSize, chunkSize);
    NonNegative(|hex| / chunkSize - 1, FILE_APPEND_PER_5_KB - AppendCost(chunkSize));
  }

  lemma {:induction false} NonNegative(a: int, b: int)
    requires a >= 0 && b >= 0
    ensures a * b >= 0
  {}

  lemma {:induction false} EstimateGrows(size: nat, size': nat, chunkSize: nat)
    requires 0 < chunkSize <= 8682 && size <= size'
    ensures EstimatedFee(size, chunkSize) <= EstimatedFee(size', chunkSize)
  {
    var q, r, q', r' := size / chunkSize, size % chunkSize, size' / chunkSize, size' % chunkSize;
    assert size == q * chunkSize + r && size' == q' * chunkSize + r';
    if q' < q {
      Scaled(q', q, chunkSize);
    } else if q < q' {
      Scaled(q, q', FILE_APPEND_PER_5_KB);
    }
  }

  /** More data never costs less in the estimate, exactly for chunk sizes up to 8682 bytes. */
  lemma {:induction false} EstimateMonotoneIff(chunkSize: nat)
    requires chunkSize > 0
    ensures chunkSize <= 8682 <==>
      forall size: nat, size': nat :: size <= size' ==> EstimatedFee(size, chunkSize) <= EstimatedFee(size', chunkSize)
  {
    if chunkSize <= 8682 {
      forall size: nat, size': nat | size <= size'
        ensures EstimatedFee(size, chunkSize) <= EstimatedFee(size', chunkSize)
      {
        EstimateGrows(size, size', chunkSize);
      }
    } else {
      QuotientUnique(chunkSize - 1, chunkSize, 0, chunkSize - 1);
      QuotientUnique(chunkSize, chunkSize, 1, 0);
      assert EstimatedFee(chunkSize - 1, chunkSize) > EstimatedFee(chunkSize, chunkSize);
    }
  }
}
