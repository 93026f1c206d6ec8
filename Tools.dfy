/**
 * The tools on the desk (Engineers.java:162-264).
 *
 * A tool is either available or held. `pickToolUp` in the source blocks
 * while the tool is held; in this single-threaded model the wait becomes
 * the precondition that the tool is available. The identifier and the name
 * are never reassigned, so they are constants here.
 */
module Tools {

  /** A pencil or an eidograph: `Pencil` and `Eidograph` are the two named constructors. */
  class Tool {
    const toolID: int
    const toolName: string
    var isAvailable: bool

    /** A new tool keeps the identifier and the name it is given and is available. */
    constructor (toolID: int, toolName: string)
      ensures this.toolID == toolID && this.toolName == toolName
      ensures isAvailable
    {
      this.toolID := toolID;
      this.toolName := toolName;
      isAvailable := true;
    }

    /** `new Pencil(pencilID)`: a tool named "pencil". */
    constructor Pencil(pencilID: int)
      ensures toolID == pencilID && toolName == "pencil"
      ensures isAvailable
    {
      toolID := pencilID;
      toolName := "pencil";
      isAvailable := true;
    }

    /** `new Eidograph(eidographID)`: a tool named "eidograph". */
    constructor Eidograph(eidographID: int)
      ensures toolID == eidographID && toolName == "eidograph"
      ensures isAvailable
    {
      toolID := eidographID;
      toolName := "eidograph";
      isAvailable := true;
    }

    /**
     * Copyist `copyistID` takes the tool, which must be available; it is
     * held afterwards. The identifier only appears in the log.
     */
    method PickToolUp(copyistID: int)
      requires isAvailable
      modifies this`isAvailable
      ensures !isAvailable
    {
      isAvailable := false;
    }

    /** Copyist `copyistID` puts the tool back; it is available afterwards. */
    method PutToolDown(copyistID: int)
      modifies this`isAvailable
      ensures isAvailable
    {
      isAvailable := true;
    }
  }
}
