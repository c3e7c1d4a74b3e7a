/**
 * The issue tracker as the command handler uses it: it only ever comments on an
 * issue and closes it, so the tracker is modelled as the log of those events.
 */
module Issues {

  datatype Event = Commented(issue: int, body: string) | Closed(issue: int)

  class Tracker {
    var events: seq<Event>

    constructor ()
      ensures events == []
    {
      events := [];
    }

    /** `comment_and_close(issue_number, message)`: one comment, then the close. */
    method CommentAndClose(issue: int, message: string)
      modifies this
      ensures events == old(events) + [Commented(issue, message), Closed(issue)]
    {
      events := events + [Commented(issue, message)];
      events := events + [Closed(issue)];
    }
  }
}
