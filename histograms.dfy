/**
 * The part of ROOT's TH2 the correction headers use: the bin counts of the two
 * axes, the axes' FindBin, and GetBinContent. Binning and storage are ROOT's
 * and are not modelled: a histogram is given by these functions, and every call
 * goes through the wrapper functions below.
 */
module Histograms {

  datatype Hist2D = Hist2D(
    nbinsX: int,
    nbinsY: int,
    findBinX: real -> int,
    findBinY: real -> int,
    content: (int, int) -> real)

  /** GetXaxis()->FindBin(x). */
  function FindBinX(h: Hist2D, x: real): int { h.findBinX(x) }

  /** GetYaxis()->FindBin(y). */
  function FindBinY(h: Hist2D, y: real): int { h.findBinY(y) }

  /** GetBinContent(xbin, ybin), for any bin numbers including the under- and overflow bins. */
  function BinContent(h: Hist2D, xbin: int, ybin: int): real { h.content(xbin, ybin) }

  /** Bin (xbin, ybin) is a regular bin of h: 1..nbins on both axes. */
  predicate InGrid(h: Hist2D, xbin: int, ybin: int) {
    1 <= xbin <= h.nbinsX && 1 <= ybin <= h.nbinsY
  }
}
