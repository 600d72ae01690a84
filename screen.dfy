/** The main screen's side of the transcription callback (main.py, class MainScreen): a
    transcription update is dropped while there is no popup, and otherwise queued on the UI
    clock, which later shows it in the popup. */
module Screen {

  const PopupInitialText: string := "Waiting for audio..."
  const DesktopNotice: string := "System audio transcription only works on Android"

  class MainScreen {
    /** A transcription popup exists (`popup` is not None). */
    var popup: bool
    /** The text on the popup's label. */
    var popupText: string
    /** The texts of the updates queued on the UI clock and not yet run, oldest first. */
    var scheduled: seq<string>

    /** An update is only ever queued for an existing popup. */
    ghost predicate Valid()
      reads this
    {
      scheduled != [] ==> popup
    }

    constructor ()
      ensures Valid() && !popup && scheduled == []
    {
      popup := false;
      popupText := "";
      scheduled := [];
    }

    /** Replaces the screen's content with a new popup showing the notice for platforms without
        system-audio capture. */
    method CreatePopup()
      requires Valid()
      modifies this
      ensures Valid() && popup && popupText == DesktopNotice && scheduled == old(scheduled)
    {
      popup := true;
      popupText := PopupInitialText;
      popupText := DesktopNotice;
    }

    /** The service callback: without a popup the text is dropped; with one, exactly one update
        carrying the same text is queued. */
    method UpdateTranscription(text: string)
      requires Valid()
      modifies this
      ensures Valid()
      ensures scheduled == old(scheduled) + (if popup then [text] else [])
      ensures popup == old(popup) && popupText == old(popupText)
    {
      if popup {
        scheduled := scheduled + [text];
      }
    }

    /** The UI clock runs the queued updates in order; the popup ends up showing the last one. */
    method RunScheduled()
      requires Valid()
      modifies this
      ensures Valid() && scheduled == [] && popup == old(popup)
      ensures popupText != old(popupText) ==> popup
      ensures popupText == if old(scheduled) == [] then old(popupText) else old(scheduled)[|old(scheduled)| - 1]
    {
      var pending := scheduled;
      scheduled := [];
      for k := 0 to |pending|
        invariant popupText == if k == 0 then old(popupText) else pending[k - 1]
        invariant scheduled == [] && popup == old(popup)
      {
        popupText := pending[k];
      }
    }
  }
}
