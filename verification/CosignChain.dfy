/** The append-only, hash-linked cosign chain. */
module CosignChain {
  import opened Words

  type Sha16 = s: string | |s| == 16 witness "0000000000000000"

  /** The first 16 hexadecimal digits of a SHA-256, as the chain uses it: some function of the text. */
  type Hash16 = string -> Sha16

  const GENESIS_PREV_SHA16: Sha16 := "0000000000000000"

  datatype CosignChainErr = NonMonotonicRow | ChainLinkBroken | KindMalformed

  datatype CosignRow = CosignRow(
    row: u64, tsNs: u64, prevSha16: string, kind: string, payloadSha16: string, sig: seq<byte>)

  /** The bytes a row is hashed and signed over; the signature is not among them. */
  function CanonicalBytes(r: CosignRow): string {
    "row=" + (Decimal(r.row) + ("|" + ("ts=" + (Decimal(r.tsNs) + ("|" + ("prev=" + (r.prevSha16
    + ("|kind=" + (r.kind + ("|payload=" + r.payloadSha16))))))))))
  }

  /** The checks a row has to pass at its place, in the order they are made. */
  function CheckRow(r: CosignRow, expectedRow: nat, expectedPrev: string): Result<(), CosignChainErr> {
    if r.row != expectedRow then Err(NonMonotonicRow)
    else if r.prevSha16 != expectedPrev then Err(ChainLinkBroken)
    else if r.kind == "" then Err(KindMalformed)
    else Ok(())
  }

  /** The first violation in a whole chain. */
  function Validate(sha16: Hash16, rows: seq<CosignRow>): Result<(), CosignChainErr> {
    ValidateFrom(sha16, rows, 0, GENESIS_PREV_SHA16)
  }

  function ValidateFrom(sha16: Hash16, rows: seq<CosignRow>, i: nat, expectedPrev: string): Result<(), CosignChainErr>
    requires i <= |rows|
    decreases |rows| - i
  {
    if i == |rows| then Ok(())
    else if CheckRow(rows[i], i + 1, expectedPrev).Err? then CheckRow(rows[i], i + 1, expectedPrev)
    else ValidateFrom(sha16, rows, i + 1, sha16(CanonicalBytes(rows[i])))
  }

  function Head(sha16: Hash16, rows: seq<CosignRow>): Sha16 {
    if rows == [] then GENESIS_PREV_SHA16 else sha16(CanonicalBytes(rows[|rows| - 1]))
  }

  class Chain {
    const sha16: Hash16
    var headSha16: Sha16
    var nextRow: nat
    var rows: seq<CosignRow>

    /** What every chain built by appending satisfies. */
    ghost predicate Valid()
      reads this
    {
      Validate(sha16, rows).Ok? && headSha16 == Head(sha16, rows) && nextRow == |rows| + 1
    }

    constructor (sha16: Hash16)
      ensures Valid() && rows == [] && this.sha16 == sha16
    {
      this.sha16, headSha16, nextRow, rows := sha16, GENESIS_PREV_SHA16, 1, [];
    }

    /** Accepts a row exactly when the extended chain validates, and otherwise reports what validation would. */
    method Append(row: CosignRow) returns (r: Result<(), CosignChainErr>)
      requires Valid()
      modifies this
      ensures Valid()
      ensures r == Validate(sha16, old(rows) + [row])
      ensures rows == if r.Ok? then old(rows) + [row] else old(rows)
    {
      ValidateExtended(sha16, rows, row);
      if row.row != nextRow {
        return Err(NonMonotonicRow);
      }
      if row.prevSha16 != headSha16 {
        return Err(ChainLinkBroken);
      }
      if row.kind == "" {
        return Err(KindMalformed);
      }
      var newHead := sha16(CanonicalBytes(row));
      rows := rows + [row];
      headSha16 := newHead;
      nextRow := nextRow + 1;
      return Ok(());
    }

    /** Works on any rows, such as rows loaded from storage. */
    method ValidateEndToEnd() returns (r: Result<(), CosignChainErr>)
      ensures r == Validate(sha16, rows)
    {
      var expectedPrev := GENESIS_PREV_SHA16;
      for i := 0 to |rows|
        invariant ValidateFrom(sha16, rows, i, expectedPrev) == Validate(sha16, rows)
      {
        var row := rows[i];
        if row.row != i + 1 {
          return Err(NonMonotonicRow);
        }
        if row.prevSha16 != expectedPrev {
          return Err(ChainLinkBroken);
        }
        if row.kind == "" {
          return Err(KindMalformed);
        }
        expectedPrev := sha16(CanonicalBytes(row));
      }
      return Ok(());
    }
  }

  // ----- appending is incremental validation

  lemma {:induction false} ValidateFromExtended(
    sha16: Hash16, rows: seq<CosignRow>, row: CosignRow, i: nat, prev: string)
    requires i <= |rows|
    ensures ValidateFrom(sha16, rows + [row], i, prev)
            == if ValidateFrom(sha16, rows, i, prev).Err? then ValidateFrom(sha16, rows, i, prev)
               else CheckRow(row, |rows| + 1, if i == |rows| then prev else Head(sha16, rows))
    decreases |rows| - i
  {
    var all := rows + [row];
    if i == |rows| {
      assert all[i] == row;
    } else {
      assert all[i] == rows[i];
      ValidateFromExtended(sha16, rows, row, i + 1, sha16(CanonicalBytes(rows[i])));
    }
  }

  /** Validating a chain extended by one row is validating the chain and then checking the row on its head. */
  lemma ValidateExtended(sha16: Hash16, rows: seq<CosignRow>, row: CosignRow)
    ensures Validate(sha16, rows + [row])
            == if Validate(sha16, rows).Err? then Validate(sha16, rows)
               else CheckRow(row, |rows| + 1, Head(sha16, rows))
  {
    ValidateFromExtended(sha16, rows, row, 0, GENESIS_PREV_SHA16);
  }

  ghost predicate Linked(sha16: Hash16, rows: seq<CosignRow>, i: nat) {
    && i < |rows|
    && rows[i].row == i + 1
    && rows[i].prevSha16 == (if i == 0 then "0000000000000000" else sha16(CanonicalBytes(rows[i - 1])))
    && rows[i].kind != ""
  }

  /** A chain validates exactly when every row is numbered by its place, linked to the row before it and has a kind. */
  lemma {:induction false} ValidIffLinked(sha16: Hash16, rows: seq<CosignRow>)
    ensures Validate(sha16, rows).Ok? <==> forall i: nat | i < |rows| :: Linked(sha16, rows, i)
  {
    if rows != [] {
      var n := |rows| - 1;
      var init := rows[..n];
      assert rows == init + [rows[n]];
      ValidateExtended(sha16, init, rows[n]);
      ValidIffLinked(sha16, init);
      forall i: nat | i < n ensures Linked(sha16, rows, i) == Linked(sha16, init, i) {
        assert init[..i] == rows[..i];
      }
      if forall i: nat | i < |rows| :: Linked(sha16, rows, i) {
        assert Linked(sha16, rows, n);
        assert forall i: nat | i < n :: Linked(sha16, rows, i) && Linked(sha16, init, i);
      }
      if Validate(sha16, rows).Ok? {
        assert forall i: nat | i < n :: Linked(sha16, init, i);
      }
    }
  }

  lemma {:induction false} ErrorStays(sha16: Hash16, rows: seq<CosignRow>, more: seq<CosignRow>)
    requires Validate(sha16, rows).Err?
    ensures Validate(sha16, rows + more) == Validate(sha16, rows)
    decreases |more|
  {
    if more == [] {
      assert rows + more == rows;
    } else {
      ErrorStays(sha16, rows, more[..|more| - 1]);
      ValidateExtended(sha16, rows + more[..|more| - 1], more[|more| - 1]);
      assert rows + more == rows + more[..|more| - 1] + [more[|more| - 1]];
    }
  }

  /** The error of a chain is that of its first bad row: its number, else its link, else its kind. */
  lemma FirstBadRowDecides(sha16: Hash16, rows: seq<CosignRow>, n: nat)
    requires n < |rows| && (forall i: nat | i < n :: Linked(sha16, rows, i)) && !Linked(sha16, rows, n)
    ensures Validate(sha16, rows)
            == Err(if rows[n].row != n + 1 then NonMonotonicRow
                   else if rows[n].prevSha16 != (if n == 0 then "0000000000000000" else sha16(CanonicalBytes(rows[n - 1])))
                   then ChainLinkBroken
                   else KindMalformed)
  {
    var init := rows[..n];
    forall i: nat | i < n ensures Linked(sha16, init, i) {
      assert Linked(sha16, rows, i);
    }
    ValidIffLinked(sha16, init);
    ValidateExtended(sha16, init, rows[n]);
    assert rows == (init + [rows[n]]) + rows[n + 1..];
    ErrorStays(sha16, init + [rows[n]], rows[n + 1..]);
  }

  // ----- the canonical bytes are an injective encoding

  /** Everything a row is hashed over. */
  ghost predicate SameHashed(a: CosignRow, b: CosignRow) { a == b.(sig := a.sig) }

  lemma {:induction false} FirstBar(a: string, x: string, b: string, y: string)
    requires '|' !in a && '|' !in b && a + ("|" + x) == b + ("|" + y)
    ensures a == b && x == y
  {
    var s, t := a + ("|" + x), b + ("|" + y);
    assert s[|a|] == '|' && t[|b|] == '|';
    assert |a| == |b|;
    ConcatInjective(a, "|" + x, b, "|" + y);
    ConcatInjective("|", x, "|", y);
  }

  lemma FirstNumber(m: nat, x: string, n: nat, y: string)
    requires Decimal(m) + ("|" + x) == Decimal(n) + ("|" + y)
    ensures m == n && x == y
  {
    DecimalReadsBack(m);
    DecimalReadsBack(n);
    FirstBar(Decimal(m), x, Decimal(n), y);
  }

  function Tail(r: CosignRow): string { r.kind + ("|payload=" + r.payloadSha16) }

  /** Canonical bytes determine number, time and link, and the rest as one text, if the links are equally long. */
  lemma CanonicalPrefix(a: CosignRow, b: CosignRow)
    requires CanonicalBytes(a) == CanonicalBytes(b) && |a.prevSha16| == |b.prevSha16|
    ensures a.row == b.row && a.tsNs == b.tsNs && a.prevSha16 == b.prevSha16 && Tail(a) == Tail(b)
  {
    hide Decimal;
    var ka, kb := Tail(a), Tail(b);
    var pa, pb := a.prevSha16 + ("|kind=" + ka), b.prevSha16 + ("|kind=" + kb);
    var ta, tb := Decimal(a.tsNs) + ("|" + ("prev=" + pa)), Decimal(b.tsNs) + ("|" + ("prev=" + pb));
    ConcatInjective("row=", Decimal(a.row) + ("|" + ("ts=" + ta)), "row=", Decimal(b.row) + ("|" + ("ts=" + tb)));
    FirstNumber(a.row, "ts=" + ta, b.row, "ts=" + tb);
    ConcatInjective("ts=", ta, "ts=", tb);
    FirstNumber(a.tsNs, "prev=" + pa, b.tsNs, "prev=" + pb);
    ConcatInjective("prev=", pa, "prev=", pb);
    ConcatInjective(a.prevSha16, "|kind=" + ka, b.prevSha16, "|kind=" + kb);
    ConcatInjective("|kind=", ka, "|kind=", kb);
  }

  /** Rows with equal canonical bytes agree on every hashed field exactly if their hash texts are equally long. */
  lemma CanonicalBytesInjective(a: CosignRow, b: CosignRow)
    requires CanonicalBytes(a) == CanonicalBytes(b)
    ensures SameHashed(a, b) <==> |a.prevSha16| == |b.prevSha16| && |a.payloadSha16| == |b.payloadSha16|
  {
    if |a.prevSha16| == |b.prevSha16| && |a.payloadSha16| == |b.payloadSha16| {
      CanonicalPrefix(a, b);
      ConcatInjective(a.kind, "|payload=" + a.payloadSha16, b.kind, "|payload=" + b.payloadSha16);
      ConcatInjective("|payload=", a.payloadSha16, "|payload=", b.payloadSha16);
    }
  }

  /**
   * A payload that is not 16 digits can hide a separator, and appending does not check it: two
   * chains of one row each are accepted, with the same head, and hold different rows.
   */
  lemma UnequalPayloadsCanCollide(sha16: Hash16)
    ensures var a := CosignRow(1, 0, GENESIS_PREV_SHA16, "K", "x|payload=y", []);
            var b := CosignRow(1, 0, GENESIS_PREV_SHA16, "K|payload=x", "y", []);
            && CanonicalBytes(a) == CanonicalBytes(b) && !SameHashed(a, b)
            && Validate(sha16, [a]).Ok? && Validate(sha16, [b]).Ok? && Head(sha16, [a]) == Head(sha16, [b])
  {
    var a := CosignRow(1, 0, GENESIS_PREV_SHA16, "K", "x|payload=y", []);
    var b := CosignRow(1, 0, GENESIS_PREV_SHA16, "K|payload=x", "y", []);
    assert "K" + ("|payload=" + "x|payload=y") == "K|payload=x" + ("|payload=" + "y");
    assert a.kind[0..1] == "K" && |a.kind| != |b.kind|;
    ValidateExtended(sha16, [], a);
    ValidateExtended(sha16, [], b);
    assert [] + [a] == [a] && [] + [b] == [b];
  }

  // ----- tamper evidence

  /** No two rows of the two chains have different canonical bytes with the same hash. */
  ghost predicate NoCollision(sha16: Hash16, a: seq<CosignRow>, b: seq<CosignRow>) {
    forall i, j | 0 <= i < |a| && 0 <= j < |b| && sha16(CanonicalBytes(a[i])) == sha16(CanonicalBytes(b[j])) ::
      CanonicalBytes(a[i]) == CanonicalBytes(b[j])
  }

  ghost predicate PayloadsAreSha16(rows: seq<CosignRow>) { forall i | 0 <= i < |rows| :: |rows[i].payloadSha16| == 16 }

  ghost predicate AllLinked(sha16: Hash16, rows: seq<CosignRow>) { forall i: nat | i < |rows| :: Linked(sha16, rows, i) }

  lemma LinkOf(sha16: Hash16, rows: seq<CosignRow>, i: nat)
    requires AllLinked(sha16, rows) && i < |rows|
    ensures rows[i].row == i + 1 && |rows[i].prevSha16| == 16
    ensures i > 0 ==> rows[i].prevSha16 == sha16(CanonicalBytes(rows[i - 1]))
  {
    assert Linked(sha16, rows, i);
    hide CanonicalBytes;
    if i > 0 {
      assert rows[..i][i - 1] == rows[i - 1];
    }
  }

  lemma {:induction false} RowsAgreeUpTo(sha16: Hash16, a: seq<CosignRow>, b: seq<CosignRow>, n: nat)
    requires 0 < n <= |a| && n <= |b| && AllLinked(sha16, a) && AllLinked(sha16, b) && NoCollision(sha16, a, b)
    requires CanonicalBytes(a[n - 1]) == CanonicalBytes(b[n - 1])
    ensures forall i | 0 <= i < n :: CanonicalBytes(a[i]) == CanonicalBytes(b[i])
  {
    LinkOf(sha16, a, n - 1);
    LinkOf(sha16, b, n - 1);
    CanonicalPrefix(a[n - 1], b[n - 1]);
    hide AllLinked, CanonicalBytes;
    if n > 1 {
      RowsAgreeUpTo(sha16, a, b, n - 1);
    }
  }

  /**
   * Two chains that both validate and end in rows with equal canonical bytes have the same length
   * and equal canonical bytes throughout; a row's hashed fields agree exactly if its payload texts
   * are equally long.
   */
  lemma ChainsAgree(sha16: Hash16, a: seq<CosignRow>, b: seq<CosignRow>)
    requires a != [] && b != []
    requires Validate(sha16, a).Ok? && Validate(sha16, b).Ok? && NoCollision(sha16, a, b)
    requires CanonicalBytes(a[|a| - 1]) == CanonicalBytes(b[|b| - 1])
    ensures |a| == |b|
    ensures forall i | 0 <= i < |a| :: CanonicalBytes(a[i]) == CanonicalBytes(b[i])
    ensures forall i | 0 <= i < |a| :: SameHashed(a[i], b[i]) <==> |a[i].payloadSha16| == |b[i].payloadSha16|
  {
    hide CanonicalBytes, Validate, NoCollision;
    ValidIffLinked(sha16, a);
    ValidIffLinked(sha16, b);
    LinkOf(sha16, a, |a| - 1);
    LinkOf(sha16, b, |b| - 1);
    CanonicalPrefix(a[|a| - 1], b[|b| - 1]);
    RowsAgreeUpTo(sha16, a, b, |a|);
    forall i | 0 <= i < |a| ensures SameHashed(a[i], b[i]) <==> |a[i].payloadSha16| == |b[i].payloadSha16| {
      LinkOf(sha16, a, i);
      LinkOf(sha16, b, i);
      CanonicalBytesInjective(a[i], b[i]);
    }
  }

  /** With 16-digit payloads such chains agree on every hashed field of every row. */
  lemma TamperEvidence(sha16: Hash16, a: seq<CosignRow>, b: seq<CosignRow>)
    requires a != [] && b != []
    requires Validate(sha16, a).Ok? && Validate(sha16, b).Ok?
    requires NoCollision(sha16, a, b) && PayloadsAreSha16(a) && PayloadsAreSha16(b)
    requires CanonicalBytes(a[|a| - 1]) == CanonicalBytes(b[|b| - 1])
    ensures |a| == |b| && forall i | 0 <= i < |a| :: SameHashed(a[i], b[i])
  {
    hide CanonicalBytes, Validate, NoCollision;
    ChainsAgree(sha16, a, b);
  }
}
