/**
 * The unit choice of `_format_size` (pdf_compressor.py lines 107-113),
 * stated by thresholds: a size is shown in the largest of B, KB, MB, GB whose
 * 1024-power it reaches, and in TB from 1024^4 bytes on. The `%.2f`
 * rendering is not modelled.
 */
module SizeFormat {

  /** 1024^k: the number of bytes in one unit of rank k. */
  function Scale(k: nat): (r: real)
    ensures r >= 1.0
  {
    if k == 0 then 1.0 else 1024.0 * Scale(k - 1)
  }

  /** The four units the loop tries, in order (line 109). */
  const UnitNames: seq<string> := ["B", "KB", "MB", "GB"]

  /** Name of the unit of rank k; rank 4 is the fallback of line 113. */
  function UnitName(k: nat): string
    requires k <= 4
  {
    if k < |UnitNames| then UnitNames[k] else "TB"
  }

  /** Rank of the unit the size is shown in, by byte thresholds. */
  function UnitIndex(size: real): (k: nat)
    ensures k <= 4
    ensures k == 0 <==> size < 1024.0
    ensures k == 4 <==> size >= 1099511627776.0
  {
    if size < Scale(1) then 0
    else if size < Scale(2) then 1
    else if size < Scale(3) then 2
    else if size < Scale(4) then 3
    else 4
  }

  /**
   * The rank is the smallest k below 4 with size / 1024^k < 1024, and 4 when
   * there is none.
   */
  lemma UnitIndexIsSmallest(size: real)
    ensures forall j :: 0 <= j < UnitIndex(size) ==> size / Scale(j) >= 1024.0
    ensures UnitIndex(size) < 4 ==> size / Scale(UnitIndex(size)) < 1024.0
  {
    forall j | 0 <= j <= 3 ensures size / Scale(j) >= 1024.0 <==> size >= Scale(j + 1) {
      DividedBelow(size, j);
    }
  }

  /** One more division by 1024 moves the comparison to the next threshold. */
  lemma DividedBelow(size: real, k: nat)
    ensures size / Scale(k) < 1024.0 <==> size < Scale(k + 1)
  {
    var s := Scale(k);
    assert Scale(k + 1) == 1024.0 * s;
    assert size == (size / s) * s;
  }

  /** Any size of at least one byte and below 1024^4 is shown as a number in [1, 1024). */
  lemma ShownValueInRange(size: real)
    requires 1.0 <= size < Scale(4)
    ensures 1.0 <= size / Scale(UnitIndex(size)) < 1024.0
  {
    var k := UnitIndex(size);
    UnitIndexIsSmallest(size);
    assert k == 0 || size >= Scale(k);
    assert size == (size / Scale(k)) * Scale(k);
  }
}
