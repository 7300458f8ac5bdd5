/**
 * The kinds of triggering events (Rule.EventType) and their textual forms:
 * the names written by the emitters and the spellings the rule loader accepts.
 */
module Events {

  /** NONE is what an unrecognised event name maps to; STARTUP is the space's one-shot start. */
  datatype EventType = NONE | ENTRY | EXIT | STARTUP

  /** Rule.eventType: only the all-capital and all-lower-case spellings are recognised. */
  function ParseEventType(s: string): (e: EventType)
    ensures e == ENTRY <==> s == "ENTRY" || s == "entry"
    ensures e == EXIT <==> s == "EXIT" || s == "exit"
    ensures e == STARTUP <==> s == "STARTUP" || s == "startup"
  {
    if s == "ENTRY" || s == "entry" then ENTRY
    else if s == "EXIT" || s == "exit" then EXIT
    else if s == "STARTUP" || s == "startup" then STARTUP
    else NONE
  }

  /** The enum constant's name, as Java's toString writes it into the event attribute. */
  function EventName(e: EventType): string
  {
    match e
    case NONE => "NONE"
    case ENTRY => "ENTRY"
    case EXIT => "EXIT"
    case STARTUP => "STARTUP"
  }

  /** Reading back a written event name gives the same event. */
  lemma ParseEventName(e: EventType)
    ensures ParseEventType(EventName(e)) == e
  {
  }

  /** Mixed-case spellings are not recognised. */
  lemma MixedCaseIsNone()
    ensures ParseEventType("Entry") == NONE
    ensures ParseEventType("Exit") == NONE
  {
  }
}
