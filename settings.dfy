/**
 * The process-wide settings record: three strings that start at their
 * defaults and are overwritten, field by field and without validation,
 * when the settings form is submitted.
 */
module AppSettings {
  import opened Wrappers

  datatype Settings = Settings(coloring: string, altText: string, resize: string)

  const DefaultSettings := Settings("Deuteranopia", "Enabled", "100%")

  /** Whether the i-th input block of a submitted form has a selected option. */
  predicate Picked(selected: seq<Option<string>>, i: nat) {
    i < |selected| && selected[i].Some?
  }

  class SettingsStore {
    var coloring: string
    var altText: string
    var resize: string

    function Snapshot(): Settings
      reads this
    {
      Settings(coloring, altText, resize)
    }

    constructor ()
      ensures Snapshot() == DefaultSettings
    {
      coloring, altText, resize := "Deuteranopia", "Enabled", "100%";
    }

    /**
     * A settings form submission.  `selected` holds, in the key order of
     * the submitted state's values, the text of each block's selected
     * option (None where a block has none).  The three fields are written in turn; a
     * block that is missing or has no selection raises, leaving the fields
     * already written in place.  Whatever text was selected is stored as is.
     */
    method Submit(selected: seq<Option<string>>) returns (ok: bool)
      modifies this
      ensures ok <==> Picked(selected, 0) && Picked(selected, 1) && Picked(selected, 2)
      ensures coloring == if Picked(selected, 0) then selected[0].value else old(coloring)
      ensures altText == if Picked(selected, 0) && Picked(selected, 1) then selected[1].value else old(altText)
      ensures resize == if ok then selected[2].value else old(resize)
      ensures ok ==> Snapshot() == Settings(selected[0].value, selected[1].value, selected[2].value)
    {
      if |selected| < 1 || selected[0].None? {
        return false;
      }
      coloring := selected[0].value;
      if |selected| < 2 || selected[1].None? {
        return false;
      }
      altText := selected[1].value;
      if |selected| < 3 || selected[2].None? {
        return false;
      }
      resize := selected[2].value;
      return true;
    }
  }
}
