/**
  What the lens hands its output to: the dash's results model, the web
  browser and the token file. Each records what it was given.
*/
module Host {
  import opened Wrappers

  /** One result row: URI, icon, category, MIME type, title, comment and drag-and-drop URI. */
  datatype Row = Row(uri: string, icon: string, category: string, mime: string,
                     title: string, comment: string, dndUri: string)

  /** The results model the dash displays. */
  class ResultsModel {
    var rows: seq<Row>

    constructor ()
      ensures rows == []
    {
      rows := [];
    }

    /** `model.append`. */
    method Append(row: Row)
      modifies this
      ensures rows == old(rows) + [row]
    {
      rows := rows + [row];
    }

    /** `results.clear`. */
    method Clear()
      modifies this
      ensures rows == []
    {
      rows := [];
    }
  }

  /** The web browser: the URLs visited so far, in order. */
  class Browser {
    var visited: seq<string>

    constructor ()
      ensures visited == []
    {
      visited := [];
    }

    /** `webbrowser.open`. */
    method Open(url: string)
      modifies this
      ensures visited == old(visited) + [url]
    {
      visited := visited + [url];
    }
  }

  /** The token file: its contents, if it exists. */
  class TokenFile {
    var stored: Option<string>

    constructor (stored: Option<string>)
      ensures this.stored == stored
    {
      this.stored := stored;
    }

    /** `saveTokenToFile`: the file now holds exactly `token`. */
    method Save(token: string)
      modifies this
      ensures stored == Some(token)
    {
      stored := Some(token);
    }
  }
}
