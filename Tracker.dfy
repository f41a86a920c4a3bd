/** The per-dose tracker of one date: the split into completed and pending
    medications, the view it shows, the buttons it offers, and the two maps
    from medication id to the chosen proof photo and its preview. */
module Tracker {
  import opened Records

  /** One medication as the tracker receives it. */
  datatype TrackedMedication = TrackedMedication(id: string, name: string, time: string, isTaken: bool)

  predicate IsTaken(m: TrackedMedication) {
    m.isTaken
  }

  /** The medications already taken, in list order. */
  function CompletedMedications(meds: seq<TrackedMedication>): (r: seq<TrackedMedication>)
    ensures forall m :: m in r <==> m in meds && m.isTaken
    ensures IsSubsequence(r, meds)
  {
    Filter(meds, IsTaken)
  }

  /** The medications not yet taken, in list order. */
  function PendingMedications(meds: seq<TrackedMedication>): (r: seq<TrackedMedication>)
    ensures forall m :: m in r <==> m in meds && !m.isTaken
    ensures IsSubsequence(r, meds)
  {
    FilterNot(meds, IsTaken)
  }

  /** Every medication is in exactly one of the two lists, as often as in
      the input, and the lengths add up to the input's. */
  lemma CompletedPendingPartition(meds: seq<TrackedMedication>)
    ensures multiset(CompletedMedications(meds)) + multiset(PendingMedications(meds)) == multiset(meds)
    ensures |CompletedMedications(meds)| + |PendingMedications(meds)| == |meds|
  {
    FilterSplit(meds, IsTaken);
  }

  /** All completed: the list is not empty and every medication is taken. */
  function AllCompleted(meds: seq<TrackedMedication>): (b: bool)
    ensures b <==> |meds| > 0 && forall m :: m in meds ==> m.isTaken
  {
    FilterKeepsAll(meds, IsTaken);
    |meds| > 0 && |CompletedMedications(meds)| == |meds|
  }

  /** The three screens the tracker can show. */
  datatype View = NoMedications | AllDone | InProgress

  /** An empty list shows the "no medications" screen, never the all-done
      one; a list of taken medications shows the all-done screen; a list
      with something pending shows the tracking screen. */
  function TrackerView(meds: seq<TrackedMedication>): (v: View)
    ensures v == NoMedications <==> |meds| == 0
    ensures v == AllDone <==> |meds| > 0 && forall m :: m in meds ==> m.isTaken
    ensures v == InProgress <==> exists m :: m in meds && !m.isTaken
  {
    if |meds| == 0 then NoMedications
    else if AllCompleted(meds) then AllDone
    else InProgress
  }

  /** The label on the mark-taken button. */
  datatype MarkLabel = MarkAsTaken | Marking | CannotMarkFuture

  /** The controls of the tracking screen. */
  datatype Controls = Controls(
    markTakenEnabled: bool,
    markLabel: MarkLabel,
    undoShown: bool,
    skipShown: bool,
    undoSkipEnabled: bool,
    readOnlyNotice: bool)

  function TrackerControls(isToday: bool, isSubmitting: bool): (c: Controls)
    // "Mark as Taken" is disabled exactly off today or while submitting
    ensures c.markTakenEnabled <==> isToday && !isSubmitting
    // Undo and Skip appear only on today's tracker, and together
    ensures c.undoShown == c.skipShown == isToday
    // whenever marking is possible, skipping is possible too
    ensures c.markTakenEnabled ==> c.skipShown && c.undoSkipEnabled
    // Undo and Skip are disabled exactly while a submit is running
    ensures c.undoSkipEnabled <==> !isSubmitting
    // the read-only notice appears exactly off today
    ensures c.readOnlyNotice <==> !isToday
    // a tracker for another day offers no action and says so
    ensures !isToday ==> !c.markTakenEnabled && !c.skipShown && !c.undoShown && c.readOnlyNotice
    ensures c.markLabel == CannotMarkFuture <==> !isToday
    ensures c.markLabel == Marking <==> isToday && isSubmitting
  {
    Controls(
      !(!isToday || isSubmitting),
      if isToday then (if isSubmitting then Marking else MarkAsTaken) else CannotMarkFuture,
      isToday,
      isToday,
      !isSubmitting,
      !isToday)
  }

  /** The arguments `onMarkTaken` is called with. */
  datatype MarkTakenCall = MarkTakenCall(medicationId: string, date: int, imageFile: Option<File>)

  /** The arguments `onMarkNotTaken` is called with. */
  datatype MarkNotTakenCall = MarkNotTakenCall(medicationId: string, date: int)

  function Lookup(m: map<string, File>, k: string): Option<File> {
    if k in m then Some(m[k]) else None
  }

  class MedicationTracker {
    // The medication list and the two flags are props only the rendering
    // reads; they are the arguments of TrackerView and TrackerControls.
    const date: int
    var selectedImages: map<string, File>
    var imagePreviews: map<string, string>

    constructor (date: int)
      ensures this.date == date
      ensures selectedImages == map[] && imagePreviews == map[]
    {
      this.date := date;
      selectedImages := map[];
      imagePreviews := map[];
    }

    /** Choosing a file stores it under the medication's id, replacing a
        previous choice and leaving every other id alone; an empty choice
        changes nothing. The preview arrives later, in PreviewLoaded. */
    method HandleImageSelect(medicationId: string, file: Option<File>)
      modifies this`selectedImages
      ensures file.Some? ==> selectedImages == old(selectedImages)[medicationId := file.value]
      ensures file.None? ==> selectedImages == old(selectedImages)
      ensures forall k :: k != medicationId ==> Lookup(selectedImages, k) == Lookup(old(selectedImages), k)
    {
      if file.Some? {
        selectedImages := selectedImages[medicationId := file.value];
      }
    }

    /** The file reader finished: the preview is stored under the id. */
    method PreviewLoaded(medicationId: string, dataUrl: string)
      modifies this`imagePreviews
      ensures imagePreviews == old(imagePreviews)[medicationId := dataUrl]
    {
      imagePreviews := imagePreviews[medicationId := dataUrl];
    }

    /** Reports the medication as taken, with this tracker's date and the
        photo stored for it if any; a stored photo and its preview are then
        dropped for that id only. */
    method HandleMarkTaken(medicationId: string) returns (call: MarkTakenCall)
      modifies this`selectedImages, this`imagePreviews
      ensures call == MarkTakenCall(medicationId, date, Lookup(old(selectedImages), medicationId))
      ensures medicationId in old(selectedImages) ==>
                selectedImages == old(selectedImages) - {medicationId}
                && imagePreviews == old(imagePreviews) - {medicationId}
      ensures medicationId !in old(selectedImages) ==>
                selectedImages == old(selectedImages) && imagePreviews == old(imagePreviews)
      ensures medicationId !in selectedImages
    {
      var imageFile := Lookup(selectedImages, medicationId);
      call := MarkTakenCall(medicationId, date, imageFile);
      if imageFile.Some? {
        selectedImages := selectedImages - {medicationId};
        imagePreviews := imagePreviews - {medicationId};
      }
    }

    /** Reports the medication as not taken, with this tracker's date. */
    method HandleMarkNotTaken(medicationId: string) returns (call: MarkNotTakenCall)
      ensures call == MarkNotTakenCall(medicationId, date)
    {
      call := MarkNotTakenCall(medicationId, date);
    }
  }
}
