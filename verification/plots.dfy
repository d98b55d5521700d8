/** The plot window's navigation (client/app/js/client.js:84-91, 137-138,
    207-235, 437-455): the plots received so far, in order, and the index of
    the one on show, -1 when the window is closed. */
module Plots {

  /** A plot, known by the id the server gave it. Its drawing data is not modelled. */
  datatype Plot = Plot(id: string)

  /** No two plots share an id. */
  predicate DistinctIds(plots: seq<Plot>) {
    forall i, j :: 0 <= i < j < |plots| ==> plots[i].id != plots[j].id
  }

  /** The index of the first plot with this id, -1 when there is none. */
  function Find(plots: seq<Plot>, id: string): (r: int)
    ensures -1 <= r < |plots|
    ensures r >= 0 ==> plots[r].id == id && forall j :: 0 <= j < r ==> plots[j].id != id
    ensures r < 0 ==> forall j :: 0 <= j < |plots| ==> plots[j].id != id
  {
    if |plots| == 0 then -1
    else
      var r := Find(plots[..|plots| - 1], id);
      if r >= 0 then r
      else if plots[|plots| - 1].id == id then |plots| - 1
      else -1
  }

  /** With distinct ids, the plot found is the only one with that id. */
  lemma FindUnique(plots: seq<Plot>, id: string, k: int)
    requires DistinctIds(plots) && 0 <= k < |plots| && plots[k].id == id
    ensures Find(plots, id) == k
  {
  }

  /** `togglePlot`: with no plots the index stays (and the user is alerted);
      a closed window opens on the newest plot; an open one closes. */
  function Toggle(idx: int, len: nat): (r: int)
    requires -1 <= idx < len || len == 0
    ensures len == 0 ==> r == idx
    ensures len > 0 ==> -1 <= r < len && (r >= 0 <==> idx < 0) && (r >= 0 ==> r == len - 1)
  {
    if len == 0 then idx else if idx < 0 then len - 1 else -1
  }

  /** `showPrevPlot`: one plot back, unless the first plot is on show or the window is closed. */
  function Prev(idx: int): (r: int)
    ensures idx <= 0 ==> r == idx
    ensures idx > 0 ==> r == idx - 1
  {
    if idx <= 0 then idx else idx - 1
  }

  /** `showNextPlot`: one plot forward, unless the last plot is on show. */
  function Next(idx: int, len: nat): (r: int)
    ensures idx + 1 >= len ==> r == idx
    ensures idx + 1 < len ==> r == idx + 1
  {
    if idx + 1 >= len then idx else idx + 1
  }

  /** The navigation keys keep the index of a non-empty window on a plot or at -1. */
  lemma NavigationInRange(idx: int, len: nat)
    requires -1 <= idx < len
    ensures -1 <= Prev(idx) < len && -1 <= Next(idx, len) < len && -1 <= Toggle(idx, len) < len
  {
  }

  /** Back and forward are inverse while they can move: one step back and one
      forward returns to the same plot, and so does the other order. */
  lemma PrevNextInverse(idx: int, len: nat)
    requires 0 <= idx < len
    ensures idx > 0 ==> Next(Prev(idx), len) == idx
    ensures idx + 1 < len ==> Prev(Next(idx, len)) == idx
  {
  }

  /** Back stays on the first plot and forward stays on the last one; going
      forward from a closed window opens it on the first plot. */
  lemma NavigationEnds(len: nat)
    requires len > 0
    ensures Prev(0) == 0 && Next(len - 1, len) == len - 1
    ensures Next(-1, len) == 0 && Prev(-1) == -1
  {
  }

  /** Toggling twice from a closed window closes it again; from an open one it
      comes back on the newest plot, not on the one that was shown. */
  lemma ToggleTwice(idx: int, len: nat)
    requires -1 <= idx < len
    ensures Toggle(Toggle(idx, len), len) == (if idx < 0 then -1 else len - 1)
  {
  }

  /** The plot history and the plot window's index, as the view model keeps them. */
  class PlotWindow {
    var plotHistory: seq<Plot>
    var currentPlotIdx: int
    var inlinePlots: bool

    ghost predicate Valid()
      reads this
    {
      -1 <= currentPlotIdx < |plotHistory| && DistinctIds(plotHistory)
    }

    /** No plots yet and the window closed. */
    constructor (inline: bool)
      ensures Valid() && plotHistory == [] && currentPlotIdx == -1 && inlinePlots == inline
    {
      plotHistory := [];
      currentPlotIdx := -1;
      inlinePlots := inline;
    }

    /** `togglePlot`; `alert` says whether the user is told there is no plot. */
    method TogglePlot() returns (alert: bool)
      requires Valid()
      modifies this
      ensures Valid() && plotHistory == old(plotHistory) && inlinePlots == old(inlinePlots)
      ensures alert <==> |plotHistory| == 0
      ensures currentPlotIdx == Toggle(old(currentPlotIdx), |plotHistory|)
    {
      var idx := currentPlotIdx;
      var len := |plotHistory|;
      alert := false;
      if len == 0 {
        alert := true;
      } else if idx < 0 {
        currentPlotIdx := len - 1;
      } else {
        currentPlotIdx := -1;
      }
    }

    /** `showPrevPlot` */
    method ShowPrevPlot()
      requires Valid()
      modifies this
      ensures Valid() && plotHistory == old(plotHistory) && inlinePlots == old(inlinePlots)
      ensures currentPlotIdx == Prev(old(currentPlotIdx))
    {
      var idx := currentPlotIdx;
      if idx <= 0 {
        return;
      }
      currentPlotIdx := idx - 1;
    }

    /** `showNextPlot` */
    method ShowNextPlot()
      requires Valid()
      modifies this
      ensures Valid() && plotHistory == old(plotHistory) && inlinePlots == old(inlinePlots)
      ensures currentPlotIdx == Next(old(currentPlotIdx), |plotHistory|)
    {
      var idx := currentPlotIdx;
      var len := |plotHistory|;
      if idx + 1 >= len {
        return;
      }
      currentPlotIdx := idx + 1;
    }

    /** `PlotObject.setCurrent` for the plot with this id: the scan runs from
      the newest plot to the oldest and does not stop at a match, so the
      window shows the first plot with the id; with none, nothing changes. */
    method SetCurrent(id: string)
      requires -1 <= currentPlotIdx < |plotHistory|
      modifies this
      ensures plotHistory == old(plotHistory) && inlinePlots == old(inlinePlots)
      ensures -1 <= currentPlotIdx < |plotHistory|
      ensures currentPlotIdx == (if Find(plotHistory, id) >= 0 then Find(plotHistory, id) else old(currentPlotIdx))
    {
      var arr := plotHistory;
      var i := |arr| - 1;
      while i >= 0
        invariant -1 <= i < |arr| && plotHistory == arr && inlinePlots == old(inlinePlots)
        invariant -1 <= currentPlotIdx < |arr|
        invariant (forall j :: i < j < |arr| ==> arr[j].id != id) ==> currentPlotIdx == old(currentPlotIdx)
        invariant (exists j :: i < j < |arr| && arr[j].id == id) ==>
          i < currentPlotIdx && arr[currentPlotIdx].id == id &&
          forall j :: i < j < currentPlotIdx ==> arr[j].id != id
        decreases i
      {
        if arr[i].id == id {
          currentPlotIdx := i;
        }
        i := i - 1;
      }
      var f := Find(arr, id);
      if f >= 0 {
        assert arr[f].id == id;
        assert !(currentPlotIdx < f || currentPlotIdx > f);
      }
    }

    /** `getOrMakePlotById`: the newest plot with the id, when there is one;
      otherwise a new plot is appended and, unless plots are drawn inline in
      the console, the window shows it. */
    method GetOrMakePlotById(id: string) returns (plot: Plot)
      requires Valid()
      modifies this
      ensures Valid() && inlinePlots == old(inlinePlots) && plot.id == id
      ensures Find(old(plotHistory), id) >= 0 ==>
        plotHistory == old(plotHistory) && currentPlotIdx == old(currentPlotIdx) &&
        plot == plotHistory[Find(plotHistory, id)]
      ensures Find(old(plotHistory), id) < 0 ==>
        plotHistory == old(plotHistory) + [plot] &&
        currentPlotIdx == (if inlinePlots then old(currentPlotIdx) else |old(plotHistory)|)
    {
      var arr := plotHistory;
      var i := |arr| - 1;
      while i >= 0
        invariant -1 <= i < |arr|
        invariant forall j :: i < j < |arr| ==> arr[j].id != id
        decreases i
      {
        if arr[i].id == id {
          FindUnique(arr, id, i);
          return arr[i];
        }
        i := i - 1;
      }
      plot := Plot(id);
      plotHistory := plotHistory + [plot];
      if !inlinePlots {
        SetCurrent(id);
        FindUnique(plotHistory, id, |arr|);
      }
    }
  }
}
