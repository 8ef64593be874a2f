/** The attachment preview above the message box: the human-readable file
    size and when the preview is drawn and scrolls. */
module MediaPreview {
  import opened Common

  const KiB: nat := 1024
  const MiB: nat := 1024 * 1024
  const GiB: nat := 1024 * 1024 * 1024

  datatype SizeUnit = Bytes | Kilo | Mega | Giga

  /** The band a size falls in; every size falls in exactly one. */
  function UnitFor(size: nat): (u: SizeUnit)
    ensures u == Bytes <==> size < KiB
    ensures u == Kilo <==> KiB <= size < MiB
    ensures u == Mega <==> MiB <= size < GiB
    ensures u == Giga <==> GiB <= size
  {
    if size < KiB then Bytes else if size < MiB then Kilo else if size < GiB then Mega else Giga
  }

  /** `toFixed(1)` of `size / scale` counted in tenths: the nearest multiple
      of one tenth, halves rounded up. Dividing by a power of two is exact, so
      this is the number the browser rounds. */
  function Tenths(size: nat, scale: nat): (n: nat)
    requires scale > 0
    ensures 2 * n * scale <= 20 * size + scale < 2 * (n + 1) * scale
  {
    (20 * size + scale) / (2 * scale)
  }

  /** `n` tenths written with one decimal. */
  function OneDecimal(n: nat): string {
    NatToString(n / 10) + "." + [DigitChar(n % 10)]
  }

  /** `formatFileSize`. */
  function FormatFileSize(size: nat): (s: string)
    ensures UnitFor(size) == Bytes ==> s == NatToString(size) + "B"
    ensures UnitFor(size) == Kilo ==> s == OneDecimal(Tenths(size, KiB)) + "KB"
    ensures UnitFor(size) == Mega ==> s == OneDecimal(Tenths(size, MiB)) + "MB"
    ensures UnitFor(size) == Giga ==> s == OneDecimal(Tenths(size, GiB)) + "GB"
  {
    if size < KiB then NatToString(size) + "B"
    else if size < MiB then OneDecimal(Tenths(size, KiB)) + "KB"
    else if size < GiB then OneDecimal(Tenths(size, MiB)) + "MB"
    else OneDecimal(Tenths(size, GiB)) + "GB"
  }

  /** Inside the KB and MB bands the figure lies between 1.0 and 1024.0;
      the upper end is reached by sizes just below the next band. */
  lemma BandFiguresInRange(size: nat)
    ensures UnitFor(size) == Kilo ==> 10 <= Tenths(size, KiB) <= 10240
    ensures UnitFor(size) == Mega ==> 10 <= Tenths(size, MiB) <= 10240
    ensures UnitFor(size) == Giga ==> 10 <= Tenths(size, GiB)
  {
    if UnitFor(size) == Kilo {
      var n := Tenths(size, KiB);
      assert 2 * n * KiB <= 20 * size + KiB < 2 * (n + 1) * KiB;
    }
    if UnitFor(size) == Mega {
      var n := Tenths(size, MiB);
      assert 2 * n * MiB <= 20 * size + MiB < 2 * (n + 1) * MiB;
    }
    if UnitFor(size) == Giga {
      var n := Tenths(size, GiB);
      assert 20 * size + GiB < 2 * (n + 1) * GiB;
    }
  }

  /** One byte short of a megabyte is shown as "1024.0KB". */
  lemma JustBelowMegabyte()
    ensures FormatFileSize(MiB - 1) == "1024.0KB"
  {
    assert Tenths(MiB - 1, KiB) == 10240;
    assert NatToString(1024) == "1024";
  }

  /** The preview, its header count and its scrolling. */
  datatype PreviewView = Hidden | Shown(headerCount: nat, scrolls: bool)

  function Preview(fileCount: nat): (v: PreviewView)
    ensures v.Hidden? <==> fileCount == 0
    ensures v.Shown? ==> v.headerCount == fileCount && (v.scrolls <==> fileCount > 4)
  {
    if fileCount == 0 then Hidden else Shown(fileCount, fileCount > 4)
  }
}
