/** The HTTP front end (src/web_server.cpp): a loose reading of an HTTP/1.1 request line
    and header fields (sections 3.1.1 and 3.2 of RFC 7230) and of the query component of
    a URI (section 3.4 of RFC 3986, without percent-decoding), the rewriting of request
    paths onto the server's directories, the choice of content type, and the routing of
    a received message. Sockets are left out: the routing returns the response it would
    send, the files it would read are the map `files`, and a POST whose body has not
    arrived with the headers is reported as such. */
module WebServer {
  import opened Wrappers
  import Text

  // ---------------------------------------------------------------- searching

  /** The position of the first `c` at or after `from`, or the end (`std::find`). */
  function IndexOfFrom(s: string, c: char, from: nat): (r: nat)
    requires from <= |s|
    ensures from <= r <= |s| && c !in s[from..r]
    ensures r < |s| ==> s[r] == c
    decreases |s| - from
  {
    if from == |s| || s[from] == c then from
    else
      var r := IndexOfFrom(s, c, from + 1);
      assert s[from..r] == [s[from]] + s[from + 1..r];
      r
  }

  function IndexOf(s: string, c: char): (r: nat)
    ensures r <= |s| && c !in s[..r]
    ensures r < |s| ==> s[r] == c
  {
    assert s[0..] == s;
    IndexOfFrom(s, c, 0)
  }

  /** The first `c` is at `k` when `s[k]` is one and nothing before it is. */
  lemma IndexOfIs(s: string, c: char, k: nat)
    requires k < |s| && s[k] == c && c !in s[..k]
    ensures IndexOf(s, c) == k
  {
  }

  /** `std::find(s.begin() + from, s.end(), c)`. */
  method Find(s: string, c: char, from: nat) returns (k: nat)
    requires from <= |s|
    ensures k == IndexOfFrom(s, c, from)
  {
    k := from;
    while k != |s| && s[k] != c
      invariant from <= k <= |s|
      invariant IndexOfFrom(s, c, k) == IndexOfFrom(s, c, from)
    {
      k := k + 1;
    }
  }

  predicate OccursAt(s: string, w: string, i: int)
  {
    0 <= i && i + |w| <= |s| && s[i..i + |w|] == w
  }

  /** The first occurrence of a non-empty `w` at or after `from`. */
  function FirstOccurrence(s: string, w: string, from: nat): (r: Option<nat>)
    requires w != []
    ensures r.Some? ==> from <= r.value && OccursAt(s, w, r.value)
    ensures forall j :: from <= j && (r.None? || j < r.value) ==> !OccursAt(s, w, j)
    decreases |s| - from
  {
    if from + |w| > |s| then None
    else if s[from..from + |w|] == w then Some(from)
    else FirstOccurrence(s, w, from + 1)
  }

  /** `boost::algorithm::replace_first`: the first occurrence of `w` replaced by `with`;
      the string itself when `w` does not occur. */
  function ReplaceFirst(s: string, w: string, with: string): (r: string)
    requires w != []
  {
    match FirstOccurrence(s, w, 0)
    case None => s
    case Some(i) => s[..i] + with + s[i + |w|..]
  }

  /** Replacing in a string that starts with `w` replaces that prefix. */
  lemma ReplaceAtStart(w: string, rest: string, with: string)
    requires w != []
    ensures ReplaceFirst(w + rest, w, with) == with + rest
  {
    var s := w + rest;
    assert s[0..|w|] == w;
    assert FirstOccurrence(s, w, 0) == Some(0);
    assert s[..0] + with + s[|w|..] == with + rest by {
      assert s[..0] == [] && s[|w|..] == rest;
    }
  }

  /** Replacing a word that occurs nowhere in the string changes nothing. */
  lemma ReplaceAbsent(s: string, w: string, with: string)
    requires w != []
    requires forall j :: !OccursAt(s, w, j)
    ensures ReplaceFirst(s, w, with) == s
  {
    assert FirstOccurrence(s, w, 0).None?;
  }

  // ---------------------------------------------------------------- parse_request

  datatype Request = Request(path: string, args: map<string, string>)

  /** One query piece: with an `=`, the name before the first one and the value after
      it; without, nothing. */
  function Argument(piece: string): Option<(string, string)>
  {
    var e := IndexOf(piece, '=');
    if e == |piece| then None else Some((piece[..e], piece[e + 1..]))
  }

  /** The arguments of the query pieces, later pieces overwriting earlier ones. */
  function ArgsOf(pieces: seq<string>): map<string, string>
  {
    if pieces == [] then map[]
    else
      var args := ArgsOf(pieces[..|pieces| - 1]);
      match Argument(pieces[|pieces| - 1])
      case None => args
      case Some(nv) => args[nv.0 := nv.1]
  }

  /** `parse_request`'s result: the path is the text before the first `?`; the query
      after it is cut at `&` (the pieces stripped of white space, empty ones dropped). */
  function RequestOf(s: string): Request
  {
    var q := IndexOf(s, '?');
    Request(s[..q], if q == |s| then map[] else ArgsOf(Text.Split(s[q + 1..], '&')))
  }

  /** Whether some piece with an `=` names `name`. */
  predicate Names(piece: string, name: string)
  {
    Argument(piece).Some? && Argument(piece).value.0 == name
  }

  /** A name is an argument exactly when some piece with an `=` names it; pieces
      without `=` add nothing. */
  lemma {:induction false} ArgsOfNames(pieces: seq<string>, name: string)
    ensures name in ArgsOf(pieces) <==> exists i :: 0 <= i < |pieces| && Names(pieces[i], name)
  {
    if pieces != [] {
      var init := pieces[..|pieces| - 1];
      ArgsOfNames(init, name);
      assert forall i :: 0 <= i < |init| ==> pieces[i] == init[i];
      if name in ArgsOf(init) {
        var i :| 0 <= i < |init| && Names(init[i], name);
        assert Names(pieces[i], name);
      }
    }
  }

  /** An argument's value is that of the last piece naming it. */
  lemma {:induction false} ArgsOfLastWins(pieces: seq<string>, name: string)
    requires name in ArgsOf(pieces)
    ensures exists i :: 0 <= i < |pieces| && Argument(pieces[i]) == Some((name, ArgsOf(pieces)[name]))
                        && forall j :: i < j < |pieces| ==> !Names(pieces[j], name)
  {
    var init := pieces[..|pieces| - 1];
    var last := pieces[|pieces| - 1];
    if Names(last, name) {
      assert Argument(pieces[|pieces| - 1]) == Some((name, ArgsOf(pieces)[name]));
    } else {
      ArgsOfLastWins(init, name);
      var i :| 0 <= i < |init| && Argument(init[i]) == Some((name, ArgsOf(init)[name]))
               && forall j :: i < j < |init| ==> !Names(init[j], name);
      assert Argument(pieces[i]) == Some((name, ArgsOf(pieces)[name]));
      assert forall j :: i < j < |pieces| ==> !Names(pieces[j], name) by {
        forall j | i < j < |pieces| ensures !Names(pieces[j], name) {
          if j < |init| {
            assert pieces[j] == init[j];
          }
        }
      }
    }
  }

  /** `parse_request`: the path up to the first `?`; then each `&`-piece holding an `=`
      sets the argument it names. */
  method ParseRequest(s: string) returns (r: Request)
    ensures r == RequestOf(s)
    ensures '?' !in r.path
  {
    var q := Find(s, '?', 0);
    assert q == IndexOf(s, '?');
    r := Request(s[..q], map[]);
    if q != |s| {
      var pieces := Text.Split(s[q + 1..], '&');
      var args: map<string, string> := map[];
      var n := 0;
      while n != |pieces|
        invariant 0 <= n <= |pieces|
        invariant args == ArgsOf(pieces[..n])
      {
        var a := pieces[n];
        var e := Find(a, '=', 0);
        assert e == IndexOf(a, '=');
        ArgsOfStep(pieces, n);
        if e != |a| {
          args := args[a[..e] := a[e + 1..]];
        }
        n := n + 1;
      }
      assert pieces[..n] == pieces;
      r := Request(s[..q], args);
    }
  }

  /** One more piece: its argument, if it has one, overwrites the earlier ones. */
  lemma ArgsOfStep(pieces: seq<string>, n: nat)
    requires n < |pieces|
    ensures var e := IndexOf(pieces[n], '=');
      ArgsOf(pieces[..n + 1])
      == if e == |pieces[n]| then ArgsOf(pieces[..n]) else ArgsOf(pieces[..n])[pieces[n][..e] := pieces[n][e + 1..]]
  {
    assert pieces[..n + 1][..n] == pieces[..n];
    assert pieces[..n + 1][n] == pieces[n];
  }

  /** A query of one `name=value` piece reads back as that argument. */
  lemma QueryReadsBack(path: string, name: string, value: string)
    requires '?' !in path && '=' !in name
    requires name + "=" + value != [] && Text.Trimmed(name + "=" + value) && '&' !in name + "=" + value
    ensures RequestOf(path + "?" + (name + "=" + value)) == Request(path, map[name := value])
  {
    var piece := name + "=" + value;
    var s := path + "?" + piece;
    assert s == path + ("?" + piece);
    assert s[..|path|] == path && s[|path|] == '?';
    IndexOfIs(s, '?', |path|);
    assert s[|path| + 1..] == piece;
    SplitSingle(piece, '&');
    assert piece[|name|] == '=' && piece[..|name|] == name && piece[|name| + 1..] == value;
    IndexOfIs(piece, '=', |name|);
    ArgsOfSingle(piece);
    assert RequestOf(s) == Request(path, ArgsOf([piece]));
  }

  /** A single trimmed piece free of the separator splits into itself. */
  lemma SplitSingle(piece: string, c: char)
    requires piece != [] && Text.Trimmed(piece) && c !in piece
    ensures Text.Split(piece, c) == [piece]
  {
    Text.SplitJoin([piece], c);
  }

  lemma ArgsOfSingle(piece: string)
    ensures Argument(piece).Some? ==> ArgsOf([piece]) == map[Argument(piece).value.0 := Argument(piece).value.1]
  {
    assert [piece][..0] == [];
  }

  // ---------------------------------------------------------------- parse_env

  /** `tolower` on one character. */
  function Lower(c: char): char
  {
    if 'A' <= c <= 'Z' then (c as int + 32) as char else c
  }

  function LowerString(s: string): (r: string)
    ensures |r| == |s| && forall i :: 0 <= i < |s| ==> r[i] == Lower(s[i])
  {
    seq(|s|, i requires 0 <= i < |s| => Lower(s[i]))
  }

  /** One header line: nothing without a `:` or with the `:` last; otherwise the
      lower-cased text before the first `:` and the text from two places after it. */
  function HeaderField(line: string): Option<(string, string)>
  {
    var c := IndexOf(line, ':');
    if c == |line| || c + 1 == |line| then None
    else Some((LowerString(line[..c]), line[c + 2..]))
  }

  function EnvOf(lines: seq<string>): map<string, string>
  {
    if lines == [] then map[]
    else
      var env := EnvOf(lines[..|lines| - 1]);
      match HeaderField(lines[|lines| - 1])
      case None => env
      case Some(kv) => env[kv.0 := kv.1]
  }

  /** `parse_env`'s result over the lines of `s` (stripped, empty ones dropped). */
  function Env(s: string): map<string, string>
  {
    EnvOf(Text.Split(s, '\n'))
  }

  /** Every key of the environment is lower case. */
  lemma {:induction false} EnvKeysLower(lines: seq<string>)
    ensures forall k :: k in EnvOf(lines) ==> forall i :: 0 <= i < |k| ==> !('A' <= k[i] <= 'Z')
  {
    if lines != [] {
      EnvKeysLower(lines[..|lines| - 1]);
    }
  }

  /** A `Name: value` line reads as the lower-cased name and the value. */
  lemma HeaderFieldReads(name: string, value: string)
    requires ':' !in name
    ensures HeaderField(name + ": " + value) == Some((LowerString(name), value))
  {
    var line := name + ": " + value;
    assert line[|name|] == ':' && line[..|name|] == name && line[|name| + 2..] == value;
    IndexOfIs(line, ':', |name|);
  }

  /** `std::transform(..., tolower)`. */
  method ToLower(s: string) returns (r: string)
    ensures r == LowerString(s)
  {
    r := [];
    var n := 0;
    while n != |s|
      invariant 0 <= n <= |s| && r == LowerString(s[..n])
    {
      r := r + [Lower(s[n])];
      n := n + 1;
    }
    assert s[..n] == s;
  }

  /** One header line, as `parse_env`'s loop body reads it. */
  method ReadHeaderField(line: string) returns (f: Option<(string, string)>)
    ensures f == HeaderField(line)
  {
    var colon := Find(line, ':', 0);
    assert line[0..] == line;
    if colon == |line| || colon + 1 == |line| {
      return None;
    }
    var key := ToLower(line[..colon]);
    f := Some((key, line[colon + 2..]));
  }

  /** `parse_env`: each line with a `:` that is not its last character sets the
      lower-cased key before it to the text two places after it. */
  method ParseEnv(s: string) returns (env: map<string, string>)
    ensures env == Env(s)
  {
    var lines := Text.Split(s, '\n');
    env := map[];
    var n := 0;
    while n != |lines|
      invariant 0 <= n <= |lines| && env == EnvOf(lines[..n])
    {
      EnvOfStep(lines, n);
      env := SetHeaderField(env, lines[n]);
      n := n + 1;
    }
    assert lines[..n] == lines;
  }

  /** `parse_env`'s loop body: a header line sets its field, any other line is skipped. */
  method SetHeaderField(env: map<string, string>, line: string) returns (r: map<string, string>)
    ensures r == match HeaderField(line)
                 case None => env
                 case Some(kv) => env[kv.0 := kv.1]
  {
    var f := ReadHeaderField(line);
    r := env;
    if f.Some? {
      r := env[f.value.0 := f.value.1];
    }
  }

  lemma EnvOfStep(lines: seq<string>, n: nat)
    requires n < |lines|
    ensures EnvOf(lines[..n + 1]) == match HeaderField(lines[n])
                                     case None => EnvOf(lines[..n])
                                     case Some(kv) => EnvOf(lines[..n])[kv.0 := kv.1]
  {
    assert lines[..n + 1][..n] == lines[..n];
    assert lines[..n + 1][n] == lines[n];
  }

  // ---------------------------------------------------------------- routing

  /** The path rewriting, in order: the first "/dave/wizard-data/" becomes "data/", then
      the first "/dave/wizard-images/" becomes "alpha-images/", then the first "/dave/"
      becomes "www/". */
  function RewritePath(path: string): string
  {
    ReplaceFirst(ReplaceFirst(ReplaceFirst(path, "/dave/wizard-data/", "data/"),
                              "/dave/wizard-images/", "alpha-images/"), "/dave/", "www/")
  }

  /** "/dave/" contains no other occurrence of itself than at the start. */
  lemma NoDaveIn(s: string)
    requires forall j :: !OccursAt(s, "/dave/", j)
    ensures forall j :: !OccursAt(s, "/dave/wizard-data/", j)
    ensures forall j :: !OccursAt(s, "/dave/wizard-images/", j)
  {
    assert "/dave/wizard-data/"[..6] == "/dave/" && "/dave/wizard-images/"[..6] == "/dave/";
    forall j | OccursAt(s, "/dave/wizard-data/", j) ensures OccursAt(s, "/dave/", j) {
      assert s[j..j + 6] == s[j..j + 18][..6];
    }
    forall j | OccursAt(s, "/dave/wizard-images/", j) ensures OccursAt(s, "/dave/", j) {
      assert s[j..j + 6] == s[j..j + 20][..6];
    }
  }

  /** A static page under "/dave/" is served from "www/". */
  lemma RewriteWww(rest: string)
    requires forall j :: !OccursAt("/dave/" + rest, "/dave/wizard-data/", j)
    requires forall j :: !OccursAt("/dave/" + rest, "/dave/wizard-images/", j)
    ensures RewritePath("/dave/" + rest) == "www/" + rest
  {
    ReplaceAbsent("/dave/" + rest, "/dave/wizard-data/", "data/");
    ReplaceAbsent("/dave/" + rest, "/dave/wizard-images/", "alpha-images/");
    ReplaceAtStart("/dave/", rest, "www/");
  }

  /** A data file under "/dave/wizard-data/" is served from "data/", when the rest of
      its path, after a slash, does not mention "/dave/". */
  lemma RewriteData(rest: string)
    requires forall j :: !OccursAt("/" + rest, "/dave/", j)
    ensures RewritePath("/dave/wizard-data/" + rest) == "data/" + rest
  {
    ReplaceAtStart("/dave/wizard-data/", rest, "data/");
    var s := "data/" + rest;
    assert s == "data" + ("/" + rest);
    forall j | 0 <= j && j + 6 <= |s| ensures !OccursAt(s, "/dave/", j) {
      if j >= 4 {
        assert s[j..j + 6] == ("/" + rest)[j - 4..j - 4 + 6];
        assert !OccursAt("/" + rest, "/dave/", j - 4);
      } else {
        assert s[j] != '/';
      }
    }
    NoDaveIn(s);
    ReplaceAbsent(s, "/dave/wizard-images/", "alpha-images/");
    ReplaceAbsent(s, "/dave/", "www/");
  }

  /** The start of a path's last extension: the last `.` after the first character, or
      the start when there is none. */
  function ExtensionStart(path: string, i: nat): (r: nat)
    requires i < |path|
    ensures r <= i && (r == 0 || path[r] == '.')
    ensures forall j :: r < j <= i ==> path[j] != '.'
  {
    if i == 0 || path[i] == '.' then i else ExtensionStart(path, i - 1)
  }

  function Extension(path: string): string
    requires path != []
  {
    path[ExtensionStart(path, |path| - 1)..]
  }

  /** The content type of an extension. */
  function TypeOf(ext: string): string
  {
    if ext == ".js" then "application/javascript"
    else if ext == ".png" then "image/png"
    else if ext == ".xml" then "text/xml"
    else "text/html"
  }

  /** The extension of a file name ending in `.` and a dot-free suffix is that part. */
  lemma ExtensionOfSuffix(stem: string, suffix: string)
    requires stem != [] && '.' !in suffix
    ensures Extension(stem + "." + suffix) == "." + suffix
  {
    var p := stem + "." + suffix;
    assert p[|stem|] == '.';
    assert forall j :: |stem| < j < |p| ==> p[j] == suffix[j - |stem| - 1];
    var k := ExtensionStart(p, |p| - 1);
    assert k == |stem|;
    assert p[|stem|..] == "." + suffix;
  }

  /** The content type for a non-empty path, found by walking back from its end. */
  method ContentType(path: string) returns (t: string)
    requires path != []
    ensures t == TypeOf(Extension(path))
  {
    var i := |path| - 1;
    while i != 0 && path[i] != '.'
      invariant 0 <= i < |path|
      invariant ExtensionStart(path, i) == ExtensionStart(path, |path| - 1)
    {
      i := i - 1;
    }
    var end := path[i..];
    t := "text/html";
    if end == ".js" {
      t := "application/javascript";
    } else if end == ".png" {
      t := "image/png";
    } else if end == ".xml" {
      t := "text/xml";
    }
  }

  /** Where the line holding position `b` starts: after the last newline before `b`,
      or at the start. */
  function LineStart(s: string, b: nat): (r: nat)
    requires b <= |s|
    ensures r <= b && '\n' !in s[r..b] && (r > 0 ==> s[r - 1] == '\n')
  {
    if b == 0 || s[b - 1] == '\n' then b
    else
      var r := LineStart(s, b - 1);
      assert s[r..b] == s[r..b - 1] + [s[b - 1]];
      r
  }

  /** The POST user lookup: back from the character before `b` to a newline or the
      start of the message, then past that newline. */
  method UserStart(s: string, b: nat) returns (k: nat)
    requires 0 < b <= |s|
    ensures k == LineStart(s, b)
  {
    k := b - 1;
    while k != 0 && s[k] != '\n'
      invariant 0 <= k < b
      invariant LineStart(s, k + 1) == LineStart(s, b)
    {
      k := k - 1;
    }
    if s[k] == '\n' {
      k := k + 1;
    }
  }

  /** The text up to the first NUL (`strlen`). */
  function UpToNul(s: string): string
  {
    s[..IndexOf(s, '\0')]
  }

  /** What the front end does with a message. */
  datatype Response =
    | Close                                  // the socket is disconnected
    | NoHeaders                              // a GET without a header line: nothing is done
    | Page(contentType: string, content: string)
    | NotFound
    | AwaitBody                              // a POST whose body is still to be read
    | Ajax(user: string, xml: string)        // handed to the game server as the user's message

  predicate StartsWith(s: string, p: string)
  {
    |p| <= |s| && s[..|p|] == p
  }

  function FileOf(files: map<string, string>, path: string): string
  {
    if path in files then files[path] else ""
  }

  function EnvValue(env: map<string, string>, key: string): string
  {
    if key in env then env[key] else ""
  }

  /** The main page: the template with the host and the user filled in. */
  function MainPage(files: map<string, string>, host: string, user: string): string
  {
    ReplaceFirst(ReplaceFirst(FileOf(files, "www/main_template.html"), "__HOSTNAME__", host), "__USERID__", user)
  }

  /** The response to a GET of `target` whose header block is `headers`. */
  function GetResponse(target: string, headers: string, files: map<string, string>): Response
  {
    var req := RequestOf(target);
    var path := RewritePath(req.path);
    if path == "/" && "user" in req.args then
      Page("text/html; charset=UTF-8", MainPage(files, EnvValue(Env(headers), "host"), req.args["user"]))
    else if path != [] && path[0] != '/' then
      if FileOf(files, path) != [] then Page(TypeOf(Extension(path)), FileOf(files, path)) else NotFound
    else NotFound
  }

  /** The response to a GET message. */
  function GetOutcome(msg: string, files: map<string, string>): Response
    requires |msg| >= 4
  {
    var e := IndexOfFrom(msg, ' ', 4);
    var nl := IndexOf(msg, '\n');
    if e == |msg| then Close
    else if nl == |msg| then NoHeaders
    else GetResponse(msg[4..e], msg[nl + 1..], files)
  }

  /** The response to a POST message. */
  function PostOutcome(msg: string): Response
  {
    match FirstOccurrence(msg, "\n<", 0)
    case None => AwaitBody
    case Some(b) => if b == 0 then Close else Ajax(msg[LineStart(msg, b)..b], UpToNul(msg[b + 1..]))
  }

  /** The response to any message: a message shorter than 16 bytes, or one that is
      neither a GET nor a POST, closes the socket. */
  function MessageOutcome(msg: string, files: map<string, string>): Response
  {
    if |msg| < 16 then Close
    else if StartsWith(msg, "GET ") then GetOutcome(msg, files)
    else if StartsWith(msg, "POST ") then PostOutcome(msg)
    else Close
  }

  /** A GET: the target runs from the fifth character to the next space (none closes
      the socket); it is parsed and its path rewritten; with no newline there are no
      header fields and nothing is done; otherwise the headers after the first newline
      are parsed and the request answered. */
  method HandleGet(msg: string, files: map<string, string>) returns (r: Response)
    requires |msg| >= 16
    ensures r == GetOutcome(msg, files)
  {
    var e := Find(msg, ' ', 4);
    if e == |msg| {
      return Close;
    }
    var request := ParseRequest(msg[4..e]);
    var path := request.path;
    path := ReplaceFirst(path, "/dave/wizard-data/", "data/");
    path := ReplaceFirst(path, "/dave/wizard-images/", "alpha-images/");
    path := ReplaceFirst(path, "/dave/", "www/");
    var nl := Find(msg, '\n', 0);
    assert msg[0..] == msg;
    if nl == |msg| {
      return NoHeaders;
    }
    var env := ParseEnv(msg[nl + 1..]);
    r := Respond(request, path, env, files);
  }

  /** The answer to a parsed GET whose rewritten path is `path`. */
  method Respond(request: Request, path: string, env: map<string, string>, files: map<string, string>)
    returns (r: Response)
    ensures path == "/" && "user" in request.args ==>
              r == Page("text/html; charset=UTF-8", MainPage(files, EnvValue(env, "host"), request.args["user"]))
    ensures !(path == "/" && "user" in request.args) && path != [] && path[0] != '/' ==>
              r == if FileOf(files, path) != [] then Page(TypeOf(Extension(path)), FileOf(files, path)) else NotFound
    ensures !(path == "/" && "user" in request.args) && !(path != [] && path[0] != '/') ==> r == NotFound
  {
    if path == "/" && "user" in request.args {
      var contents := FileOf(files, "www/main_template.html");
      contents := ReplaceFirst(contents, "__HOSTNAME__", EnvValue(env, "host"));
      contents := ReplaceFirst(contents, "__USERID__", request.args["user"]);
      r := Page("text/html; charset=UTF-8", contents);
    } else if path != [] && path[0] != '/' {
      var contentType := ContentType(path);
      var content := FileOf(files, path);
      if content != [] {
        r := Page(contentType, content);
      } else {
        r := NotFound;
      }
    } else {
      r := NotFound;
    }
  }

  /** A POST: the XML payload starts at the first "\n<" (none: the body is still to
      come); the user is the line just before it; the payload runs to the first NUL. */
  method HandlePost(msg: string) returns (r: Response)
    requires StartsWith(msg, "POST ")
    ensures r == PostOutcome(msg) && r != Close
  {
    var found := FirstOccurrence(msg, "\n<", 0);
    if found.None? {
      return AwaitBody;
    }
    var b := found.value;
    assert msg[0] == 'P';
    assert b != 0 by {
      assert msg[b..b + 2][0] == '\n';
    }
    var start := UserStart(msg, b);
    var xml := msg[b + 1..];
    var len := Find(xml, '\0', 0);
    assert xml[0..] == xml;
    r := Ajax(msg[start..b], xml[..len]);
  }

  /** `handle_message`: a message shorter than 16 bytes, or one that is neither a GET nor
      a POST, closes the socket; the others are handled as above. */
  method HandleMessage(msg: string, files: map<string, string>) returns (r: Response)
    ensures r == MessageOutcome(msg, files)
  {
    if |msg| < 16 {
      return Close;
    }
    if StartsWith(msg, "GET ") {
      r := HandleGet(msg, files);
    } else if StartsWith(msg, "POST ") {
      r := HandlePost(msg);
    } else {
      r := Close;
    }
  }

  /** The first occurrence is at `b` when `w` occurs there and nowhere before. */
  lemma {:induction false} FirstOccurrenceIs(s: string, w: string, from: nat, b: nat)
    requires w != [] && from <= b && OccursAt(s, w, b)
    requires forall j :: from <= j < b ==> !OccursAt(s, w, j)
    ensures FirstOccurrence(s, w, from) == Some(b)
    decreases b - from
  {
    if from < b {
      assert !OccursAt(s, w, from);
      FirstOccurrenceIs(s, w, from + 1, b);
    }
  }

  /** A POST whose payload follows the line naming the user hands that user and the
      payload, from its `<`, on. */
  lemma PostNamesUser(head: string, user: string, xml: string)
    requires '\n' !in user && '\0' !in xml && StartsWith(head, "POST ")
    requires forall j :: !OccursAt(head + "\n" + user, "\n<", j)
    requires user == [] || user[0] != '<'
    ensures PostOutcome(head + "\n" + user + "\n<" + xml) == Ajax(user, "<" + xml)
  {
    var pre := head + "\n" + user;
    var msg := pre + "\n<" + xml;
    var b := |pre|;
    MarkerAfter(pre, xml);
    assert msg[|head|] == '\n';
    assert msg[|head| + 1..b] == user;
    LineStartAfter(msg, |head|, b);
    assert msg[b + 1..] == "<" + xml;
    IndexOfIsEnd("<" + xml, '\0');
  }

  /** The first "\n<" of a text appended to one without any is where it was appended. */
  lemma MarkerAfter(pre: string, xml: string)
    requires forall j :: !OccursAt(pre, "\n<", j)
    ensures FirstOccurrence(pre + "\n<" + xml, "\n<", 0) == Some(|pre|)
  {
    var msg := pre + "\n<" + xml;
    var b := |pre|;
    assert msg[..b] == pre && msg[b] == '\n' && msg[b + 1] == '<';
    assert OccursAt(msg, "\n<", b) by {
      assert msg[b..b + 2] == "\n<";
    }
    forall j | 0 <= j < b ensures !OccursAt(msg, "\n<", j) {
      if j < b - 1 {
        assert msg[j..j + 2] == pre[j..j + 2];
        assert !OccursAt(pre, "\n<", j);
      } else {
        assert msg[j..j + 2][1] == msg[b] == '\n';
      }
    }
    FirstOccurrenceIs(msg, "\n<", 0, b);
  }

  /** The line holding `b` starts just after a newline at `nl` when none lies between. */
  lemma {:induction false} LineStartAfter(s: string, nl: nat, b: nat)
    requires nl < b <= |s| && s[nl] == '\n' && '\n' !in s[nl + 1..b]
    ensures LineStart(s, b) == nl + 1
    decreases b
  {
    if b > nl + 1 {
      assert s[b - 1] == s[nl + 1..b][b - 1 - (nl + 1)];
      assert s[nl + 1..b - 1] == s[nl + 1..b][..b - 1 - (nl + 1)];
      LineStartAfter(s, nl, b - 1);
    }
  }

  /** A string with no `c` is read up to its end. */
  lemma IndexOfIsEnd(s: string, c: char)
    requires c !in s
    ensures IndexOf(s, c) == |s|
  {
  }
}
