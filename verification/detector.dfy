/** `Controller.am_exporting_importing` (controller.py): an all-or-nothing
    threshold test over a device's grid-load window. The site counts as
    importing only when every stored sample is above the threshold, and as
    exporting only when every one is below its negation; a short window
    decides nothing. */
module Detector {
  import opened Common

  /** `math.ceil(IMPORT_EXPORT_MONITOR_DURATION_SECONDS /
      INVERTER_POLL_INTERVAL_SECONDS)`: how many samples the test needs. */
  function MinSamples(monitorDurationSeconds: int, pollIntervalSeconds: int): (n: int)
    requires pollIntervalSeconds > 0
    ensures (n - 1) * pollIntervalSeconds < monitorDurationSeconds <= n * pollIntervalSeconds
  {
    CeilDiv(monitorDurationSeconds, pollIntervalSeconds)
  }

  /** The scanning loop, oldest sample first, returning False at the first
      sample that disqualifies the direction. */
  function Scan(window: seq<real>, isImport: bool, threshold: real): bool
  {
    if window == [] then true
    else if isImport && window[0] <= threshold then false
    else if !isImport && window[0] >= 0.0 - threshold then false
    else Scan(window[1..], isImport, threshold)
  }

  /** `am_exporting_importing(inverter, is_import)` applied to the device's
      `_grid_load` window. */
  function AmExportingImporting(window: seq<real>, isImport: bool, minCount: int, threshold: real): bool
  {
    if |window| < minCount then false else Scan(window, isImport, threshold)
  }

  /** Import: every sample strictly above the threshold. */
  predicate AllAbove(window: seq<real>, threshold: real)
  {
    forall k :: 0 <= k < |window| ==> window[k] > threshold
  }

  /** Export: every sample strictly below the negated threshold. */
  predicate AllBelow(window: seq<real>, threshold: real)
  {
    forall k :: 0 <= k < |window| ==> window[k] < -threshold
  }

  lemma {:induction false} ScanMeansEverySample(window: seq<real>, threshold: real)
    ensures Scan(window, true, threshold) <==> AllAbove(window, threshold)
    ensures Scan(window, false, threshold) <==> AllBelow(window, threshold)
  {
    if window != [] {
      ScanMeansEverySample(window[1..], threshold);
      assert AllAbove(window, threshold) <==> window[0] > threshold && AllAbove(window[1..], threshold) by {
        if window[0] > threshold && AllAbove(window[1..], threshold) {
          forall k | 0 <= k < |window| ensures window[k] > threshold {
            if k > 0 { assert window[k] == window[1..][k - 1]; }
          }
        }
      }
      assert AllBelow(window, threshold) <==> window[0] < -threshold && AllBelow(window[1..], threshold) by {
        if window[0] < -threshold && AllBelow(window[1..], threshold) {
          forall k | 0 <= k < |window| ensures window[k] < -threshold {
            if k > 0 { assert window[k] == window[1..][k - 1]; }
          }
        }
      }
    }
  }

  /** The detector in both directions: true exactly when the window is long
      enough and every sample is on the right side of the threshold. */
  lemma DetectorCharacterisation(window: seq<real>, minCount: int, threshold: real)
    ensures AmExportingImporting(window, true, minCount, threshold)
            <==> |window| >= minCount && AllAbove(window, threshold)
    ensures AmExportingImporting(window, false, minCount, threshold)
            <==> |window| >= minCount && AllBelow(window, threshold)
  {
    ScanMeansEverySample(window, threshold);
  }

  /** With a non-negative threshold and at least one sample, a window is
      never reported as importing and exporting at once. */
  lemma NeverImportingAndExporting(window: seq<real>, minCount: int, threshold: real)
    requires threshold >= 0.0
    requires |window| >= 1
    ensures !(AmExportingImporting(window, true, minCount, threshold)
              && AmExportingImporting(window, false, minCount, threshold))
  {
    DetectorCharacterisation(window, minCount, threshold);
    if AllAbove(window, threshold) {
      assert window[0] > threshold;
    }
  }

  /** One sample at or below the threshold anywhere in the window resets the
      import flag; one at or above the negated threshold resets the export
      flag. */
  lemma OneSampleResets(window: seq<real>, k: int, minCount: int, threshold: real)
    requires 0 <= k < |window|
    ensures window[k] <= threshold ==> !AmExportingImporting(window, true, minCount, threshold)
    ensures window[k] >= -threshold ==> !AmExportingImporting(window, false, minCount, threshold)
  {
    DetectorCharacterisation(window, minCount, threshold);
  }
}
