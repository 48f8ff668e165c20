/** The decisions `download_card` takes for one card: validating the form,
    the request headers, what the search count means, the folder and file
    names, which gallery images are saved, and the order of the archive's
    steps. Network replies, the listing of the card folder and the markdown
    renderer are inputs; what the operation does is returned as the sequence
    of its effects (requests, file-system steps and messages to the user). */
module Download {
  import opened Wrappers
  import opened OrderedDict
  import PyString
  import opened Report

  // ---------------------------------------------------------------- headers

  /** The headers of the search and gallery requests: JSON accepted, the
      client's user agent, and a bearer token only when one is set. */
  function RequestHeaders(token: string): (r: Dict<string, string>)
    ensures KeysUnique(r)
    ensures HasKey(r, "Authorization") <==> token != ""
    ensures token != "" ==> Get(r, "Authorization") == Some("Bearer " + token)
    ensures Get(r, "accept") == Some("application/json")
    ensures Get(r, "User-Agent") == Some("ChubCardDownloader/1.0")
    ensures forall k :: HasKey(r, k) <==> k == "accept" || k == "User-Agent" || (k == "Authorization" && token != "")
  {
    var base := [("accept", "application/json"), ("User-Agent", "ChubCardDownloader/1.0")];
    assert forall k :: HasKey(base, k) <==> k == "accept" || k == "User-Agent" by {
      forall k ensures HasKey(base, k) <==> k == "accept" || k == "User-Agent" {
        if k == "accept" { assert base[0].0 == k; }
        if k == "User-Agent" { assert base[1].0 == k; }
      }
    }
    if token == "" then base
    else
      assert forall k :: HasKey(Put(base, "Authorization", "Bearer " + token), k) <==> HasKey(base, k) || k == "Authorization" by {
        forall k ensures HasKey(Put(base, "Authorization", "Bearer " + token), k) <==> HasKey(base, k) || k == "Authorization" {
          PutKeys(base, "Authorization", "Bearer " + token, k);
        }
      }
      GetPutSame(base, "Authorization", "Bearer " + token);
      GetPutOther(base, "Authorization", "Bearer " + token, "accept");
      GetPutOther(base, "Authorization", "Bearer " + token, "User-Agent");
      Put(base, "Authorization", "Bearer " + token)
  }

  /** The headers of the card download: a copy of `headers` that accepts any
      type and sends JSON; the authorization, if any, is kept. */
  function DownloadHeaders(headers: Dict<string, string>): (r: Dict<string, string>)
    requires KeysUnique(headers)
    ensures KeysUnique(r)
    ensures Get(r, "accept") == Some("*/*")
    ensures Get(r, "Content-Type") == Some("application/json")
    ensures forall k :: k != "accept" && k != "Content-Type" ==> Get(r, k) == Get(headers, k)
  {
    var accepting := Put(headers, "accept", "*/*");
    var r := Put(accepting, "Content-Type", "application/json");
    GetPutSame(accepting, "Content-Type", "application/json");
    GetPutOther(accepting, "Content-Type", "application/json", "accept");
    GetPutSame(headers, "accept", "*/*");
    forall k | k != "accept" && k != "Content-Type" ensures Get(r, k) == Get(headers, k) {
      GetPutOther(accepting, "Content-Type", "application/json", k);
      GetPutOther(headers, "accept", "*/*", k);
    }
    r
  }

  /** Which headers a request is sent with: the search headers built from the
      token, or the copy of them made for the card download. */
  datatype HeaderChoice = ApiHeaders(token: string) | DownloadCopy(token: string)

  /** The dictionary a request with these headers sends. */
  function Sent(h: HeaderChoice): (r: Dict<string, string>)
    ensures KeysUnique(r)
  {
    match h
    case ApiHeaders(token) => RequestHeaders(token)
    case DownloadCopy(token) => DownloadHeaders(RequestHeaders(token))
  }

  /** Every request carries `Authorization` exactly when a token is set, and
      then `Bearer ` followed by the token; every request has the user agent. */
  lemma SentAuthorization(h: HeaderChoice)
    ensures HasKey(Sent(h), "Authorization") <==> h.token != ""
    ensures h.token != "" ==> Get(Sent(h), "Authorization") == Some("Bearer " + h.token)
    ensures Get(Sent(h), "User-Agent") == Some("ChubCardDownloader/1.0")
  {
    match h
    case ApiHeaders(token) =>
    case DownloadCopy(token) =>
      var base := RequestHeaders(token);
      assert Get(DownloadHeaders(base), "Authorization") == Get(base, "Authorization");
      assert Get(DownloadHeaders(base), "User-Agent") == Get(base, "User-Agent");
  }

  /** The search and gallery requests accept JSON; the download copy accepts
      anything and declares a JSON body. */
  lemma SentAccept(h: HeaderChoice)
    ensures h.ApiHeaders? ==> Get(Sent(h), "accept") == Some("application/json")
    ensures h.DownloadCopy? ==>
      Get(Sent(h), "accept") == Some("*/*") && Get(Sent(h), "Content-Type") == Some("application/json")
  {
  }

  // ---------------------------------------------------------------- search

  /** What a search count means. */
  datatype Resolution =
    | NoMatch(tokenHint: bool)  // nothing found; hint at setting a token when none is set
    | ManyMatches               // ask for a more specific name
    | OneMatch                  // go on with the first node

  /** `count = data.get('count', 0)`, then `== 0`, `> 1`, or anything else:
      a missing count or 0 finds nothing, with the token hint exactly when no
      token is set; a count above 1 finds several cards; any other count,
      1 or negative, goes on with the first node. */
  function Classify(count: Option<int>, token: string): (r: Resolution)
    ensures r.NoMatch? <==> count == None || count == Some(0)
    ensures r.NoMatch? ==> (r.tokenHint <==> token == "")
    ensures r == ManyMatches <==> count.Some? && count.value > 1
    ensures r == OneMatch <==> count.Some? && (count.value == 1 || count.value < 0)
  {
    var c := count.GetOr(0);
    if c == 0 then NoMatch(token == "")
    else if c > 1 then ManyMatches
    else OneMatch
  }

  /** For a count that is a real count (never negative), the search resolves
      exactly when it found one card. */
  lemma OneMatchIffSingle(count: nat, token: string)
    ensures Classify(Some(count), token) == OneMatch <==> count == 1
  {
  }

  // ---------------------------------------------------------------- names

  /** The card folder's name: the card name with every space made `_`. */
  function DirName(name: string): (r: string)
    ensures |r| == |name| && ' ' !in r
    ensures forall i :: 0 <= i < |name| && name[i] != ' ' ==> r[i] == name[i]
    ensures forall i :: 0 <= i < |name| && name[i] == ' ' ==> r[i] == '_'
  {
    PyString.ReplaceRemovesTarget(name, ' ', '_');
    PyString.Replace(name, ' ', '_')
  }

  /** A name without spaces is its own folder name, and only such a name is. */
  lemma DirNameFixedPoints(name: string)
    ensures DirName(name) == name <==> ' ' !in name
    ensures DirName(DirName(name)) == DirName(name)
  {
    if ' ' !in name {
      assert forall i :: 0 <= i < |name| ==> DirName(name)[i] == name[i];
    }
    var d := DirName(name);
    assert forall i :: 0 <= i < |d| ==> DirName(d)[i] == d[i];
  }

  /** A gallery image's file name: its URL after the last `/`. */
  function GalleryFileName(url: string): (r: string)
    ensures '/' !in r
    ensures |r| <= |url| && r == url[|url| - |r|..]
    ensures |r| < |url| ==> url[|url| - |r| - 1] == '/'
  {
    PyString.LastPart(url, '/')
  }

  /** The file name of `…/dir/name` is `name`: the last path segment is recovered. */
  lemma GalleryFileNameOfPath(prefix: string, name: string)
    requires '/' !in name
    ensures GalleryFileName(prefix + "/" + name) == name
  {
    PyString.LastPartOfJoin(prefix + "/", name, '/');
  }

  // ---------------------------------------------------------------- inputs

  /** The form and the saved settings at the moment the button is pressed. */
  datatype Settings = Settings(
    nameEntry: string,       // the card-name entry, as typed
    bundleOption: string,    // "Folder" or "Zip"
    outputDirectory: string, // "" when none was chosen
    apiToken: string)        // the saved token, "" when none

  /** What the search request came back with. */
  datatype SearchReply =
    | SearchHttpError(status: int)          // `raise_for_status` raised
    | SearchException                       // any other failure of the request
    | SearchBodyInvalid                     // the body is not JSON; nothing catches this
    | SearchOk(count: Option<int>, nodes: seq<Node>)

  /** What the card-image download came back with. */
  datatype PngReply = PngHttpError | PngException | PngOk

  /** One image fetch: its HTTP status, or a failure of the request itself. */
  datatype ImageReply = ImageStatus(code: int) | ImageException

  /** One gallery node: its `primary_image_path` (absent when missing) and what fetching it gives. */
  datatype GalleryNode = GalleryNode(imagePath: Option<string>, reply: ImageReply)

  /** What the gallery request came back with; `nodes` is absent when the body lacks it. */
  datatype GalleryReply =
    | GalleryHttpError
    | GalleryException
    | GalleryOk(count: Option<int>, nodes: Option<seq<GalleryNode>>)

  /** Everything the outside world answers during one download. */
  datatype Replies = Replies(
    search: SearchReply,
    png: PngReply,
    gallery: GalleryReply,
    listing: seq<string>)  // the files found in the card folder when it is archived

  // ---------------------------------------------------------------- effects

  /** The messages shown to the user. */
  datatype Notice =
    | InputWarning                 // no card name
    | OutputDirectoryWarning       // no output directory
    | SearchApiError(status: int)
    | SearchFailure
    | Unresolved(resolution: Resolution)
    | PngHttpFailure
    | PngFailure
    | NoGalleryImages
    | GalleryHttpFailure
    | GalleryFailure
    | Saved(zipped: bool)

  /** One observable step. File names are relative to the card folder. */
  datatype Effect =
    | Notify(notice: Notice)
    | SearchRequest(term: string, headers: HeaderChoice)
    | EnsureDirectory(path: seq<string>)
    | WriteReport(fileName: string, doc: seq<Block>)
    | PngRequest(fullPath: string, headers: HeaderChoice)
    | SavePng(fileName: string)
    | GalleryRequest(cardId: string, headers: HeaderChoice)
    | ImageRequest(url: string)
    | WriteImage(fileName: string)
    | ZipOpen(folder: seq<string>)
    | ZipAdd(fileName: string)
    | ZipClose
    | RemoveFile(fileName: string)
    | RemoveDirectory(folder: seq<string>)
    | Crash  // an exception nothing catches ends the operation

  /** The keys `download_card` reads with `node[...]`, which raise when missing. */
  predicate HasCardKeys(node: Node) {
    "id" in node.fields && "fullPath" in node.fields && "description" in node.fields && "name" in node.fields
  }

  // ---------------------------------------------------------------- the trace

  /** Everything one press of the download button does, in order. */
  function Trace(s: Settings, r: Replies, markdown: string -> string): seq<Effect> {
    var name := PyString.Strip(s.nameEntry);
    var token := PyString.Strip(s.apiToken);
    if name == "" then [Notify(InputWarning)]
    else if s.outputDirectory == "" then [Notify(OutputDirectoryWarning)]
    else [SearchRequest(name, ApiHeaders(token))] + AfterSearch(s, token, r, markdown)
  }

  /** What follows the search request. */
  function AfterSearch(s: Settings, token: string, r: Replies, markdown: string -> string): seq<Effect> {
    match r.search
    case SearchHttpError(status) => [Notify(SearchApiError(status))]
    case SearchException => [Notify(SearchFailure)]
    case SearchBodyInvalid => [Crash]
    case SearchOk(count, nodes) =>
      var resolution := Classify(count, token);
      if resolution != OneMatch then [Notify(Unresolved(resolution))]
      else if nodes == [] || !HasCardKeys(nodes[0]) then [Crash]
      else Assemble(s, token, nodes[0], r, markdown)
  }

  /** The folder, the report and the card image of the resolved card, then the rest. */
  function Assemble(s: Settings, token: string, node: Node, r: Replies, markdown: string -> string): seq<Effect>
    requires HasCardKeys(node)
  {
    CardSetup(s, token, node, Report.Report(node, markdown(Text(node, "description"))))
    + AfterPng(s, token, node, r)
  }

  /** Both folders, the report file `html`, and the request for the card image. */
  function CardSetup(s: Settings, token: string, node: Node, html: seq<Block>): seq<Effect>
    requires HasCardKeys(node)
  {
    var name := node.fields["name"];
    [ EnsureDirectory([s.outputDirectory]),
      EnsureDirectory([s.outputDirectory, DirName(name)]),
      WriteReport(name + "_info.html", html),
      PngRequest(node.fields["fullPath"], DownloadCopy(token)) ]
  }

  /** What follows the request for the card image. */
  function AfterPng(s: Settings, token: string, node: Node, r: Replies): seq<Effect>
    requires HasCardKeys(node)
  {
    var name := node.fields["name"];
    match r.png
    case PngHttpError => [Notify(PngHttpFailure)]
    case PngException => [Notify(PngFailure)]
    case PngOk =>
      [SavePng(name + ".png"), GalleryRequest(node.fields["id"], ApiHeaders(token))]
      + AfterGallery(s.bundleOption, [s.outputDirectory, DirName(name)], r)
  }

  /** The gallery images, then the bundle step unless the gallery failed. */
  function AfterGallery(bundleOption: string, folder: seq<string>, r: Replies): seq<Effect> {
    match r.gallery
    case GalleryHttpError => [Notify(GalleryHttpFailure)]
    case GalleryException => [Notify(GalleryFailure)]
    case GalleryOk(count, nodes) =>
      if count.GetOr(0) >= 1 then
        match nodes
        case None => [Notify(GalleryFailure)]
        case Some(images) =>
          var (steps, completed) := GalleryLoop(images);
          steps + if completed then Bundle(bundleOption, folder, r.listing) else []
      else [Notify(NoGalleryImages)] + Bundle(bundleOption, folder, r.listing)
  }

  /** Each gallery node in turn: fetch its image, and save it when the status
      is 200. A node without a path or a fetch that raises ends the loop with
      an error; `completed` tells whether every node was handled. */
  function GalleryLoop(images: seq<GalleryNode>): (result: (seq<Effect>, bool)) {
    if images == [] then ([], true)
    else
      match images[0].imagePath
      case None => ([Notify(GalleryFailure)], false)
      case Some(url) =>
        match images[0].reply
        case ImageException => ([ImageRequest(url), Notify(GalleryFailure)], false)
        case ImageStatus(code) =>
          var (rest, completed) := GalleryLoop(images[1..]);
          ([ImageRequest(url)] + (if code == 200 then [WriteImage(GalleryFileName(url))] else []) + rest, completed)
  }

  /** The bundle step: for "Zip", archive every listed file, close the archive,
      then delete the files and the folder; otherwise leave the folder. */
  function Bundle(bundleOption: string, folder: seq<string>, listing: seq<string>): seq<Effect> {
    if bundleOption == "Zip" then
      [ZipOpen(folder)] + ZipAdds(listing) + [ZipClose] + Removals(listing)
      + [RemoveDirectory(folder), Notify(Saved(true))]
    else [Notify(Saved(false))]
  }

  function ZipAdds(listing: seq<string>): (r: seq<Effect>)
    ensures |r| == |listing| && forall i :: 0 <= i < |r| ==> r[i] == ZipAdd(listing[i])
  {
    seq(|listing|, i requires 0 <= i < |listing| => ZipAdd(listing[i]))
  }

  function Removals(listing: seq<string>): (r: seq<Effect>)
    ensures |r| == |listing| && forall i :: 0 <= i < |r| ==> r[i] == RemoveFile(listing[i])
  {
    seq(|listing|, i requires 0 <= i < |listing| => RemoveFile(listing[i]))
  }

  // ---------------------------------------------------------------- the method

  /** One press of the download button. */
  method DownloadCard(s: Settings, r: Replies, markdown: string -> string) returns (trace: seq<Effect>)
    ensures trace == Trace(s, r, markdown)
  {
    var name := PyString.Strip(s.nameEntry);
    var token := PyString.Strip(s.apiToken);
    if name == "" {
      return [Notify(InputWarning)];
    }
    if s.outputDirectory == "" {
      return [Notify(OutputDirectoryWarning)];
    }
    trace := [SearchRequest(name, ApiHeaders(token))];
    match r.search {
      case SearchHttpError(status) =>
        trace := trace + [Notify(SearchApiError(status))];
      case SearchException =>
        trace := trace + [Notify(SearchFailure)];
      case SearchBodyInvalid =>
        trace := trace + [Crash];
      case SearchOk(count, nodes) =>
        var resolution := Classify(count, token);
        if resolution != OneMatch {
          trace := trace + [Notify(Unresolved(resolution))];
        } else if nodes == [] || !HasCardKeys(nodes[0]) {
          trace := trace + [Crash];
        } else {
          var saved := SaveCard(s, token, nodes[0], r, markdown);
          trace := trace + saved;
        }
    }
  }

  /** The folders, the report, the card image, the gallery and the bundle of the resolved card. */
  method SaveCard(s: Settings, token: string, node: Node, r: Replies, markdown: string -> string)
    returns (steps: seq<Effect>)
    requires HasCardKeys(node)
    ensures steps == Assemble(s, token, node, r, markdown)
  {
    var name := node.fields["name"];
    var html := GenerateHtml(node, markdown);
    steps := [ EnsureDirectory([s.outputDirectory]),
               EnsureDirectory([s.outputDirectory, DirName(name)]),
               WriteReport(name + "_info.html", html),
               PngRequest(node.fields["fullPath"], DownloadCopy(token)) ];
    assert steps == CardSetup(s, token, node, html);
    var rest := FetchCardImage(s, token, node, r);
    steps := steps + rest;
  }

  /** The card image's outcome, then the gallery and the bundle step. */
  method FetchCardImage(s: Settings, token: string, node: Node, r: Replies) returns (steps: seq<Effect>)
    requires HasCardKeys(node)
    ensures steps == AfterPng(s, token, node, r)
  {
    var name := node.fields["name"];
    match r.png {
      case PngHttpError =>
        steps := [Notify(PngHttpFailure)];
      case PngException =>
        steps := [Notify(PngFailure)];
      case PngOk =>
        steps := [SavePng(name + ".png"), GalleryRequest(node.fields["id"], ApiHeaders(token))];
        var rest := FetchGallery(s.bundleOption, [s.outputDirectory, DirName(name)], r);
        steps := steps + rest;
    }
  }

  /** The gallery request's outcome, then the bundle step. */
  method FetchGallery(bundleOption: string, folder: seq<string>, r: Replies) returns (steps: seq<Effect>)
    ensures steps == AfterGallery(bundleOption, folder, r)
  {
    match r.gallery {
      case GalleryHttpError =>
        steps := [Notify(GalleryHttpFailure)];
      case GalleryException =>
        steps := [Notify(GalleryFailure)];
      case GalleryOk(count, nodes) =>
        if count.GetOr(0) >= 1 {
          if nodes.None? {
            steps := [Notify(GalleryFailure)];
          } else {
            var completed;
            steps, completed := SaveImages(nodes.value);
            if completed {
              var bundled := BundleFolder(bundleOption, folder, r.listing);
              steps := steps + bundled;
            }
          }
        } else {
          var bundled := BundleFolder(bundleOption, folder, r.listing);
          steps := [Notify(NoGalleryImages)] + bundled;
        }
    }
  }

  /** The loop over the gallery nodes. */
  method SaveImages(images: seq<GalleryNode>) returns (steps: seq<Effect>, completed: bool)
    ensures (steps, completed) == GalleryLoop(images)
  {
    steps := [];
    var i := 0;
    while i < |images|
      invariant 0 <= i <= |images|
      invariant steps + GalleryLoop(images[i..]).0 == GalleryLoop(images).0
      invariant GalleryLoop(images[i..]).1 == GalleryLoop(images).1
    {
      var image := images[i];
      GalleryLoopStep(images[i..]);
      assert images[i..][0] == image && images[i..][1..] == images[i + 1..];
      if image.imagePath.None? || image.reply.ImageException? {
        var failed := if image.imagePath.None? then [Notify(GalleryFailure)]
                      else [ImageRequest(image.imagePath.value), Notify(GalleryFailure)];
        assert GalleryLoop(images[i..]) == (failed, false);
        assert (steps + failed, false) == GalleryLoop(images);
        return steps + failed, false;
      }
      var url := image.imagePath.value;
      var written := if image.reply.code == 200 then [WriteImage(GalleryFileName(url))] else [];
      ghost var later := GalleryLoop(images[i + 1..]).0;
      assert GalleryLoop(images[i..]).0 == ([ImageRequest(url)] + written) + later;
      assert steps + ([ImageRequest(url)] + written) + later == steps + (([ImageRequest(url)] + written) + later);
      steps := steps + ([ImageRequest(url)] + written);
      i := i + 1;
    }
    assert images[i..] == [];
    assert GalleryLoop(images[i..]) == ([], true);
    assert steps == GalleryLoop(images).0;
    completed := true;
  }

  /** One turn of the gallery loop. */
  lemma GalleryLoopStep(images: seq<GalleryNode>)
    requires images != []
    ensures images[0].imagePath.None? ==> GalleryLoop(images) == ([Notify(GalleryFailure)], false)
    ensures images[0].imagePath.Some? && images[0].reply.ImageException? ==>
      GalleryLoop(images) == ([ImageRequest(images[0].imagePath.value), Notify(GalleryFailure)], false)
    ensures images[0].imagePath.Some? && images[0].reply.ImageStatus? ==>
      var url := images[0].imagePath.value;
      GalleryLoop(images).1 == GalleryLoop(images[1..]).1 &&
      GalleryLoop(images).0 == ([ImageRequest(url)]
        + (if images[0].reply.code == 200 then [WriteImage(GalleryFileName(url))] else []))
        + GalleryLoop(images[1..]).0
  {
  }

  /** The bundle step: the two walks over the card folder for "Zip". */
  method BundleFolder(bundleOption: string, folder: seq<string>, listing: seq<string>) returns (steps: seq<Effect>)
    ensures steps == Bundle(bundleOption, folder, listing)
  {
    if bundleOption != "Zip" {
      return [Notify(Saved(false))];
    }
    steps := [ZipOpen(folder)];
    for i := 0 to |listing|
      invariant steps == [ZipOpen(folder)] + ZipAdds(listing[..i])
    {
      assert ZipAdds(listing[..i + 1]) == ZipAdds(listing[..i]) + [ZipAdd(listing[i])];
      steps := steps + [ZipAdd(listing[i])];
    }
    assert listing[..|listing|] == listing;
    steps := steps + [ZipClose];
    var archived := steps;
    for i := 0 to |listing|
      invariant steps == archived + Removals(listing[..i])
    {
      assert Removals(listing[..i + 1]) == Removals(listing[..i]) + [RemoveFile(listing[i])];
      steps := steps + [RemoveFile(listing[i])];
    }
    steps := steps + [RemoveDirectory(folder), Notify(Saved(true))];
  }

  // ---------------------------------------------------------------- unfolding

  /** With a card name and an output directory, the search comes first. */
  lemma TraceSearched(s: Settings, r: Replies, markdown: string -> string)
    requires PyString.Strip(s.nameEntry) != "" && s.outputDirectory != ""
    ensures Trace(s, r, markdown) ==
      [SearchRequest(PyString.Strip(s.nameEntry), ApiHeaders(PyString.Strip(s.apiToken)))]
      + AfterSearch(s, PyString.Strip(s.apiToken), r, markdown)
  {
  }

  /** A search that resolved to a card with the keys the download reads. */
  predicate Resolved(r: Replies, token: string) {
    r.search.SearchOk? && Classify(r.search.count, token) == OneMatch &&
    r.search.nodes != [] && HasCardKeys(r.search.nodes[0])
  }

  /** A resolved search goes on with the first node. */
  lemma AfterSearchResolved(s: Settings, token: string, r: Replies, markdown: string -> string)
    requires Resolved(r, token)
    ensures AfterSearch(s, token, r, markdown) == Assemble(s, token, r.search.nodes[0], r, markdown)
  {
    match r.search {
      case SearchOk(count, nodes) =>
        assert nodes == r.search.nodes;
    }
  }

  /** Any other search outcome ends with one message or a crash. */
  lemma AfterSearchShort(s: Settings, token: string, r: Replies, markdown: string -> string)
    requires !Resolved(r, token)
    ensures |AfterSearch(s, token, r, markdown)| == 1
    ensures AfterSearch(s, token, r, markdown)[0].Notify? || AfterSearch(s, token, r, markdown)[0].Crash?
  {
  }

  // ---------------------------------------------------------------- validation and search

  /** The form is checked before anything is sent: an empty card name or an
      unset output directory only warns, and otherwise the first step is the
      search for the stripped name, sent with the stripped token. */
  lemma ValidationFirst(s: Settings, r: Replies, markdown: string -> string)
    ensures PyString.Strip(s.nameEntry) == "" ==> Trace(s, r, markdown) == [Notify(InputWarning)]
    ensures PyString.Strip(s.nameEntry) != "" && s.outputDirectory == "" ==>
      Trace(s, r, markdown) == [Notify(OutputDirectoryWarning)]
    ensures PyString.Strip(s.nameEntry) != "" && s.outputDirectory != "" ==>
      |Trace(s, r, markdown)| >= 2 &&
      Trace(s, r, markdown)[0] == SearchRequest(PyString.Strip(s.nameEntry), ApiHeaders(PyString.Strip(s.apiToken)))
  {
    if PyString.Strip(s.nameEntry) != "" && s.outputDirectory != "" {
      TraceSearched(s, r, markdown);
      var token := PyString.Strip(s.apiToken);
      if Resolved(r, token) {
        AfterSearchResolved(s, token, r, markdown);
        AssembleLayout(s, token, r.search.nodes[0], r, markdown);
      } else {
        AfterSearchShort(s, token, r, markdown);
      }
    }
  }

  /** The steps that touch the file system. */
  predicate TouchesFiles(e: Effect) {
    e.EnsureDirectory? || e.WriteReport? || e.SavePng? || e.WriteImage? || IsBundleStep(e)
  }

  /** The steps of archiving and removing the card folder. */
  predicate IsBundleStep(e: Effect) {
    e.ZipOpen? || e.ZipAdd? || e.ZipClose? || IsRemoval(e)
  }

  predicate IsRemoval(e: Effect) {
    e.RemoveFile? || e.RemoveDirectory?
  }

  /** A search that finds no card or several cards ends with a message; the
      token hint is shown exactly when no token is set. */
  lemma UnresolvedSearchStops(s: Settings, r: Replies, markdown: string -> string)
    requires PyString.Strip(s.nameEntry) != "" && s.outputDirectory != ""
    requires r.search.SearchOk? && Classify(r.search.count, PyString.Strip(s.apiToken)) != OneMatch
    ensures Trace(s, r, markdown) == [
      SearchRequest(PyString.Strip(s.nameEntry), ApiHeaders(PyString.Strip(s.apiToken))),
      Notify(Unresolved(Classify(r.search.count, PyString.Strip(s.apiToken))))]
    ensures Classify(r.search.count, PyString.Strip(s.apiToken)).NoMatch? ==>
      (Classify(r.search.count, PyString.Strip(s.apiToken)).tokenHint <==> PyString.Strip(s.apiToken) == "")
  {
    TraceSearched(s, r, markdown);
  }

  /** Nothing touches the file system unless the search found exactly one card
      whose node has the keys the download reads. */
  lemma FilesOnlyForOneCard(s: Settings, r: Replies, markdown: string -> string)
    ensures forall i :: 0 <= i < |Trace(s, r, markdown)| && TouchesFiles(Trace(s, r, markdown)[i]) ==>
      Resolved(r, PyString.Strip(s.apiToken))
  {
    var t := Trace(s, r, markdown);
    var token := PyString.Strip(s.apiToken);
    if !Resolved(r, token) {
      if PyString.Strip(s.nameEntry) != "" && s.outputDirectory != "" {
        TraceSearched(s, r, markdown);
        AfterSearchShort(s, token, r, markdown);
        assert |t| == 2 && t[1] == AfterSearch(s, token, r, markdown)[0];
      }
      assert forall i :: 0 <= i < |t| ==> Quiet(t[i]);
      QuietTouchesNoFiles(t);
    }
  }

  /** A step that only talks: a message, the search request or the crash. */
  predicate Quiet(e: Effect) {
    e.Notify? || e.SearchRequest? || e.Crash?
  }

  lemma QuietTouchesNoFiles(t: seq<Effect>)
    requires forall i :: 0 <= i < |t| ==> Quiet(t[i])
    ensures forall i :: 0 <= i < |t| ==> !TouchesFiles(t[i])
  {
  }

  // ---------------------------------------------------------------- the found card

  /** Once the card is found: both folders are made, the folder's name is the
      card's name with `_` for spaces, the report is written under the card's
      own name before the card image is requested with the download headers,
      and the gallery is asked for with the search's headers. */
  lemma ResolvedCardLayout(s: Settings, r: Replies, markdown: string -> string)
    requires PyString.Strip(s.nameEntry) != "" && s.outputDirectory != ""
    requires Resolved(r, PyString.Strip(s.apiToken))
    ensures var t := Trace(s, r, markdown);
      var node := r.search.nodes[0];
      var name := node.fields["name"];
      var token := PyString.Strip(s.apiToken);
      |t| >= 6 &&
      t[1] == EnsureDirectory([s.outputDirectory]) &&
      t[2] == EnsureDirectory([s.outputDirectory, DirName(name)]) &&
      t[3] == WriteReport(name + "_info.html", Report.Report(node, markdown(Text(node, "description")))) &&
      t[4] == PngRequest(node.fields["fullPath"], DownloadCopy(token)) &&
      (r.png.PngOk? ==> |t| >= 7 && t[5] == SavePng(name + ".png") && t[6] == GalleryRequest(node.fields["id"], ApiHeaders(token))) &&
      (!r.png.PngOk? ==> |t| == 6 && t[5].Notify?)
  {
    var token := PyString.Strip(s.apiToken);
    TraceSearched(s, r, markdown);
    AfterSearchResolved(s, token, r, markdown);
    AssembleLayout(s, token, r.search.nodes[0], r, markdown);
  }

  /** The steps of a found card, from making the output directory on. */
  lemma AssembleLayout(s: Settings, token: string, node: Node, r: Replies, markdown: string -> string)
    requires HasCardKeys(node)
    ensures var t := Assemble(s, token, node, r, markdown);
      var name := node.fields["name"];
      |t| >= 5 &&
      t[0] == EnsureDirectory([s.outputDirectory]) &&
      t[1] == EnsureDirectory([s.outputDirectory, DirName(name)]) &&
      t[2] == WriteReport(name + "_info.html", Report.Report(node, markdown(Text(node, "description")))) &&
      t[3] == PngRequest(node.fields["fullPath"], DownloadCopy(token)) &&
      (r.png.PngOk? ==> |t| >= 6 && t[4] == SavePng(name + ".png") && t[5] == GalleryRequest(node.fields["id"], ApiHeaders(token))) &&
      (!r.png.PngOk? ==> |t| == 5 && t[4].Notify?)
  {
    var setup := CardSetup(s, token, node, Report.Report(node, markdown(Text(node, "description"))));
    var after := AfterPng(s, token, node, r);
    AfterPngLayout(s, token, node, r);
    assert forall i :: 4 <= i < |setup + after| ==> (setup + after)[i] == after[i - 4];
  }

  /** After the card image request: the image is saved and the gallery asked
      for, or one message ends the operation. */
  lemma AfterPngLayout(s: Settings, token: string, node: Node, r: Replies)
    requires HasCardKeys(node)
    ensures var t := AfterPng(s, token, node, r);
      (r.png.PngOk? ==> |t| >= 2 && t[0] == SavePng(node.fields["name"] + ".png") &&
                        t[1] == GalleryRequest(node.fields["id"], ApiHeaders(token))) &&
      (!r.png.PngOk? ==> |t| == 1 && t[0].Notify?)
  {
  }

  // ---------------------------------------------------------------- headers and the archive

  /** The headers a step is sent with, if it is a request that has any. */
  function HeadersOf(e: Effect): Option<HeaderChoice> {
    match e
    case SearchRequest(_, h) => Some(h)
    case PngRequest(_, h) => Some(h)
    case GalleryRequest(_, h) => Some(h)
    case _ => None
  }

  /** Every request with headers builds them from `token`. */
  predicate HeadersFrom(t: seq<Effect>, token: string) {
    forall i :: 0 <= i < |t| && HeadersOf(t[i]).Some? ==> HeadersOf(t[i]).value.token == token
  }

  /** Nothing is removed before the archive is closed. */
  predicate ClosedBeforeRemoval(t: seq<Effect>) {
    forall i :: 0 <= i < |t| && IsRemoval(t[i]) ==> exists j :: 0 <= j < i && t[j] == ZipClose
  }

  /** Every removed file was added to the archive first. */
  predicate ArchivedBeforeRemoval(t: seq<Effect>) {
    forall i :: 0 <= i < |t| && t[i].RemoveFile? ==> exists j :: 0 <= j < i && t[j] == ZipAdd(t[i].fileName)
  }

  /** No archive is made and nothing is removed. */
  predicate KeepsFolder(t: seq<Effect>) {
    forall i :: 0 <= i < |t| ==> !IsBundleStep(t[i])
  }

  /** The rules every trace keeps, for the given token and bundle option. */
  predicate Disciplined(t: seq<Effect>, token: string, bundleOption: string) {
    HeadersFrom(t, token) && ClosedBeforeRemoval(t) && ArchivedBeforeRemoval(t) &&
    (bundleOption != "Zip" ==> KeepsFolder(t))
  }

  /** Every request of a download carries `Authorization` exactly when a token
      is set, and then `Bearer ` followed by the stripped token. */
  lemma AuthorizationIffToken(s: Settings, r: Replies, markdown: string -> string)
    ensures var t := Trace(s, r, markdown);
      var token := PyString.Strip(s.apiToken);
      forall i :: 0 <= i < |t| && HeadersOf(t[i]).Some? ==>
        (HasKey(Sent(HeadersOf(t[i]).value), "Authorization") <==> token != "") &&
        (token != "" ==> Get(Sent(HeadersOf(t[i]).value), "Authorization") == Some("Bearer " + token))
  {
    var t := Trace(s, r, markdown);
    TraceDisciplined(s, r, markdown);
    forall i | 0 <= i < |t| && HeadersOf(t[i]).Some? {
      SentAuthorization(HeadersOf(t[i]).value);
    }
  }

  /** The archive is closed before anything is removed, every removed file was
      archived first, and the "Folder" option never archives or removes anything. */
  lemma ArchiveBeforeRemoval(s: Settings, r: Replies, markdown: string -> string)
    ensures ClosedBeforeRemoval(Trace(s, r, markdown))
    ensures ArchivedBeforeRemoval(Trace(s, r, markdown))
    ensures s.bundleOption != "Zip" ==> KeepsFolder(Trace(s, r, markdown))
  {
    TraceDisciplined(s, r, markdown);
  }

  /** Every download keeps the rules, with its stripped token and bundle option. */
  lemma TraceDisciplined(s: Settings, r: Replies, markdown: string -> string)
    ensures Disciplined(Trace(s, r, markdown), PyString.Strip(s.apiToken), s.bundleOption)
  {
    var token := PyString.Strip(s.apiToken);
    if PyString.Strip(s.nameEntry) != "" && s.outputDirectory != "" {
      TraceSearched(s, r, markdown);
      AfterSearchDisciplined(s, token, r, markdown);
      var search := [SearchRequest(PyString.Strip(s.nameEntry), ApiHeaders(token))];
      assert Disciplined(search, token, s.bundleOption);
      DisciplinedConcat(search, AfterSearch(s, token, r, markdown), token, s.bundleOption);
    }
  }

  lemma AfterSearchDisciplined(s: Settings, token: string, r: Replies, markdown: string -> string)
    ensures Disciplined(AfterSearch(s, token, r, markdown), token, s.bundleOption)
  {
    if Resolved(r, token) {
      AfterSearchResolved(s, token, r, markdown);
      AssembleDisciplined(s, token, r.search.nodes[0], r, markdown);
    } else {
      AfterSearchShort(s, token, r, markdown);
    }
  }

  lemma AssembleDisciplined(s: Settings, token: string, node: Node, r: Replies, markdown: string -> string)
    requires HasCardKeys(node)
    ensures Disciplined(Assemble(s, token, node, r, markdown), token, s.bundleOption)
  {
    var setup := CardSetup(s, token, node, Report.Report(node, markdown(Text(node, "description"))));
    AfterPngDisciplined(s, token, node, r);
    DisciplinedConcat(setup, AfterPng(s, token, node, r), token, s.bundleOption);
  }

  lemma AfterPngDisciplined(s: Settings, token: string, node: Node, r: Replies)
    requires HasCardKeys(node)
    ensures Disciplined(AfterPng(s, token, node, r), token, s.bundleOption)
  {
    if r.png.PngOk? {
      var folder := [s.outputDirectory, DirName(node.fields["name"])];
      AfterGalleryDisciplined(s.bundleOption, folder, r, token);
      DisciplinedConcat([SavePng(node.fields["name"] + ".png"), GalleryRequest(node.fields["id"], ApiHeaders(token))],
        AfterGallery(s.bundleOption, folder, r), token, s.bundleOption);
    }
  }

  lemma AfterGalleryDisciplined(bundleOption: string, folder: seq<string>, r: Replies, token: string)
    ensures Disciplined(AfterGallery(bundleOption, folder, r), token, bundleOption)
  {
    var b := Bundle(bundleOption, folder, r.listing);
    BundleDisciplined(bundleOption, folder, r.listing, token);
    if r.gallery.GalleryOk? {
      if r.gallery.count.GetOr(0) >= 1 {
        if r.gallery.nodes.Some? {
          var loop := GalleryLoop(r.gallery.nodes.value);
          GalleryLoopSteps(r.gallery.nodes.value);
          QuietDisciplined(loop.0, token, bundleOption);
          if loop.1 {
            DisciplinedConcat(loop.0, b, token, bundleOption);
          } else {
            assert loop.0 + [] == loop.0;
          }
        }
      } else {
        DisciplinedConcat([Notify(NoGalleryImages)], b, token, bundleOption);
      }
    }
  }

  /** The gallery loop only fetches images, writes them, and reports a failure. */
  lemma {:induction false} GalleryLoopSteps(images: seq<GalleryNode>)
    ensures forall i :: 0 <= i < |GalleryLoop(images).0| ==> GalleryStep(GalleryLoop(images).0[i])
  {
    if images != [] && images[0].imagePath.Some? && images[0].reply.ImageStatus? {
      GalleryLoopSteps(images[1..]);
      GalleryLoopStep(images);
    }
  }

  /** For "Zip": open the archive, add every listed file, close it, remove every
      listed file and then the folder. Any other option only reports success. */
  lemma BundleDisciplined(bundleOption: string, folder: seq<string>, listing: seq<string>, token: string)
    ensures Disciplined(Bundle(bundleOption, folder, listing), token, bundleOption)
  {
    var b := Bundle(bundleOption, folder, listing);
    var n := |listing|;
    if bundleOption == "Zip" {
      assert b[n + 1] == ZipClose;
      forall i | 0 <= i < |b| && IsRemoval(b[i]) ensures exists j :: 0 <= j < i && b[j] == ZipClose {
        assert n + 1 < i;
      }
      forall i | 0 <= i < |b| && b[i].RemoveFile? ensures exists j :: 0 <= j < i && b[j] == ZipAdd(b[i].fileName) {
        assert b[i] == RemoveFile(listing[i - n - 2]);
        assert b[i - n - 1] == ZipAdd(listing[i - n - 2]);
      }
    }
  }

  /** For "Zip": the archive is opened on the card folder, every listed file
      is added before the archive is closed (once) and removed after it, the
      folder is removed last, and success is reported. Any other option only
      reports success. */
  lemma BundleOrder(bundleOption: string, folder: seq<string>, listing: seq<string>)
    ensures bundleOption != "Zip" ==> Bundle(bundleOption, folder, listing) == [Notify(Saved(false))]
    ensures bundleOption == "Zip" ==>
      var b := Bundle(bundleOption, folder, listing);
      var close := |listing| + 1;
      |b| == 2 * |listing| + 4 && b[0] == ZipOpen(folder) && b[close] == ZipClose &&
      (forall j :: 0 <= j < |b| && b[j] == ZipClose ==> j == close) &&
      (forall i :: 0 <= i < |listing| ==> b[1 + i] == ZipAdd(listing[i]) && b[close + 1 + i] == RemoveFile(listing[i])) &&
      b[|b| - 2] == RemoveDirectory(folder) && b[|b| - 1] == Notify(Saved(true))
  {
    if bundleOption == "Zip" {
      var b := Bundle(bundleOption, folder, listing);
      ZipBundleAt(folder, listing, 0);
      forall j | 0 <= j < |b| ensures b[j] == ZipStepAt(folder, listing, j) {
        ZipBundleAt(folder, listing, j);
      }
    }
  }

  /** The step at position `j` of the "Zip" bundle. */
  function ZipStepAt(folder: seq<string>, listing: seq<string>, j: int): Effect {
    var n := |listing|;
    if j == 0 then ZipOpen(folder)
    else if 1 <= j <= n then ZipAdd(listing[j - 1])
    else if j == n + 1 then ZipClose
    else if n + 2 <= j <= 2 * n + 1 then RemoveFile(listing[j - n - 2])
    else if j == 2 * n + 2 then RemoveDirectory(folder)
    else Notify(Saved(true))
  }

  lemma ZipBundleAt(folder: seq<string>, listing: seq<string>, j: int)
    requires 0 <= j < 2 * |listing| + 4
    ensures |Bundle("Zip", folder, listing)| == 2 * |listing| + 4
    ensures Bundle("Zip", folder, listing)[j] == ZipStepAt(folder, listing, j)
  {
    var n := |listing|;
    var closed := [ZipOpen(folder)] + ZipAdds(listing) + [ZipClose];
    var removed := closed + Removals(listing);
    assert Bundle("Zip", folder, listing) == removed + [RemoveDirectory(folder), Notify(Saved(true))];
    if j <= n + 1 {
      assert removed[j] == closed[j];
    } else if j <= 2 * n + 1 {
      assert removed[j] == Removals(listing)[j - n - 2];
    }
  }

  /** A gallery loop that stops at a bad node ends the download there: no
      bundle step follows, so the card folder is neither archived nor removed. */
  lemma GalleryFailureSkipsBundle(bundleOption: string, folder: seq<string>, r: Replies)
    requires r.gallery.GalleryOk? && r.gallery.count.GetOr(0) >= 1
    requires r.gallery.nodes.Some? && !AllFetchable(r.gallery.nodes.value)
    ensures AfterGallery(bundleOption, folder, r) == GalleryLoop(r.gallery.nodes.value).0
    ensures KeepsFolder(AfterGallery(bundleOption, folder, r))
  {
    var images := r.gallery.nodes.value;
    GalleryLoopCompletes(images);
    GalleryLoopSteps(images);
  }

  /** A step of the gallery loop: an image fetch, an image write, or the error message. */
  predicate GalleryStep(e: Effect) {
    e.ImageRequest? || e.WriteImage? || e == Notify(GalleryFailure)
  }

  /** Gallery steps send no headers and neither archive nor remove, so they keep the rules. */
  lemma QuietDisciplined(t: seq<Effect>, token: string, bundleOption: string)
    requires forall i :: 0 <= i < |t| ==> GalleryStep(t[i])
    ensures Disciplined(t, token, bundleOption)
  {
  }

  /** The rules hold of a concatenation when they hold of both parts. */
  lemma DisciplinedConcat(a: seq<Effect>, b: seq<Effect>, token: string, bundleOption: string)
    requires Disciplined(a, token, bundleOption) && Disciplined(b, token, bundleOption)
    ensures Disciplined(a + b, token, bundleOption)
  {
    var t := a + b;
    forall i | 0 <= i < |t| && IsRemoval(t[i]) ensures exists j :: 0 <= j < i && t[j] == ZipClose {
      if i < |a| {
        var j :| 0 <= j < i && a[j] == ZipClose;
        assert t[j] == a[j];
      } else {
        assert t[i] == b[i - |a|];
        var j :| 0 <= j < i - |a| && b[j] == ZipClose;
        assert t[|a| + j] == b[j];
      }
    }
    forall i | 0 <= i < |t| && t[i].RemoveFile? ensures exists j :: 0 <= j < i && t[j] == ZipAdd(t[i].fileName) {
      if i < |a| {
        var j :| 0 <= j < i && a[j] == ZipAdd(a[i].fileName);
        assert t[j] == a[j];
      } else {
        assert t[i] == b[i - |a|];
        var j :| 0 <= j < i - |a| && b[j] == ZipAdd(b[i - |a|].fileName);
        assert t[|a| + j] == b[j];
      }
    }
  }

  // ---------------------------------------------------------------- the gallery

  /** The URLs fetched by the steps `t`, in order. */
  function Fetched(t: seq<Effect>): seq<string> {
    if t == [] then [] else (if t[0].ImageRequest? then [t[0].url] else []) + Fetched(t[1..])
  }

  /** The image files written by the steps `t`, in order. */
  function Written(t: seq<Effect>): seq<string> {
    if t == [] then [] else (if t[0].WriteImage? then [t[0].fileName] else []) + Written(t[1..])
  }

  /** Every node has a path and its fetch did not raise. */
  predicate AllFetchable(images: seq<GalleryNode>) {
    forall i :: 0 <= i < |images| ==> images[i].imagePath.Some? && images[i].reply.ImageStatus?
  }

  /** The nodes' paths, in order. */
  function Paths(images: seq<GalleryNode>): seq<string> {
    if images == [] then [] else [images[0].imagePath.GetOr("")] + Paths(images[1..])
  }

  /** The file names of the images fetched with status 200, in order. */
  function SavedNames(images: seq<GalleryNode>): seq<string> {
    if images == [] then [] else SavedName(images[0]) + SavedNames(images[1..])
  }

  /** The file name a node's image is saved under, if it came back with status 200. */
  function SavedName(image: GalleryNode): seq<string> {
    if image.imagePath.Some? && image.reply == ImageStatus(200) then [GalleryFileName(image.imagePath.value)] else []
  }

  /** The gallery loop handles every node exactly when every node has a path
      and every fetch returns; otherwise its last step is the error message. */
  lemma GalleryLoopCompletes(images: seq<GalleryNode>)
    ensures GalleryLoop(images).1 <==> AllFetchable(images)
    ensures !GalleryLoop(images).1 ==>
      GalleryLoop(images).0 != [] && GalleryLoop(images).0[|GalleryLoop(images).0| - 1] == Notify(GalleryFailure)
  {
    GalleryLoopFinishes(images);
    if !GalleryLoop(images).1 {
      GalleryLoopEndsInFailure(images);
    }
  }

  lemma {:induction false} GalleryLoopFinishes(images: seq<GalleryNode>)
    ensures GalleryLoop(images).1 <==> AllFetchable(images)
  {
    if images != [] {
      GalleryLoopStep(images);
      if images[0].imagePath.Some? && images[0].reply.ImageStatus? {
        var tail := images[1..];
        GalleryLoopFinishes(tail);
        assert forall i :: 1 <= i < |images| ==> images[i] == tail[i - 1];
        assert AllFetchable(tail) ==> AllFetchable(images);
      }
    }
  }

  lemma {:induction false} GalleryLoopEndsInFailure(images: seq<GalleryNode>)
    requires !GalleryLoop(images).1
    ensures GalleryLoop(images).0 != [] && GalleryLoop(images).0[|GalleryLoop(images).0| - 1] == Notify(GalleryFailure)
  {
    GalleryLoopStep(images);
    if images[0].imagePath.Some? && images[0].reply.ImageStatus? {
      var tail := images[1..];
      GalleryLoopEndsInFailure(tail);
      var rest := GalleryLoop(tail).0;
      var url := images[0].imagePath.value;
      var head := [ImageRequest(url)]
        + (if images[0].reply.code == 200 then [WriteImage(GalleryFileName(url))] else []);
      assert (head + rest)[|head + rest| - 1] == rest[|rest| - 1];
    }
  }

  /** A node the loop gets past: it has a path and its fetch returned. */
  predicate Fetchable(image: GalleryNode) {
    image.imagePath.Some? && image.reply.ImageStatus?
  }

  /** How many nodes the loop gets past: the longest run of fetchable nodes at the front. */
  function Handled(images: seq<GalleryNode>): (n: nat)
    ensures n <= |images|
    ensures forall i :: 0 <= i < n ==> Fetchable(images[i])
    ensures n < |images| ==> !Fetchable(images[n])
  {
    if images == [] || !Fetchable(images[0]) then 0 else 1 + Handled(images[1..])
  }

  /** The URL requested at the node the loop stops at, if that node has a path
      (its fetch then raised); nothing when the loop did not stop. */
  function Attempted(rest: seq<GalleryNode>): seq<string> {
    if rest != [] && rest[0].imagePath.Some? then [rest[0].imagePath.value] else []
  }

  /** Whether it finishes or stops at a bad node, the gallery loop fetches the
      URLs of the nodes it got past, in order, and then the URL whose fetch
      raised, if it stopped at one. */
  lemma {:induction false} GalleryLoopFetches(images: seq<GalleryNode>)
    ensures Fetched(GalleryLoop(images).0) == Paths(images[..Handled(images)]) + Attempted(images[Handled(images)..])
  {
    if images == [] {
      assert images[..0] == [] && images[0..] == [];
    } else if Fetchable(images[0]) {
      var tail := images[1..];
      GalleryLoopFetches(tail);
      FetchedStep(images);
      var h := Handled(tail);
      assert images[..h + 1][1..] == tail[..h];
      assert images[h + 1..] == tail[h..];
    } else {
      GalleryLoopStep(images);
      assert images[..0] == [] && images[0..] == images;
      FailureRecords(images[0]);
    }
  }

  /** Whether it finishes or stops at a bad node, the gallery loop writes, in
      order, exactly the images among the nodes it got past that came back
      with status 200, each under the last segment of its URL; when it stops,
      those files stay in the card folder. */
  lemma {:induction false} GalleryLoopWrites(images: seq<GalleryNode>)
    ensures Written(GalleryLoop(images).0) == SavedNames(images[..Handled(images)])
  {
    if images == [] {
      assert images[..0] == [];
    } else if Fetchable(images[0]) {
      var tail := images[1..];
      GalleryLoopWrites(tail);
      WrittenStep(images);
      var h := Handled(tail);
      assert images[..h + 1][1..] == tail[..h];
    } else {
      GalleryLoopStep(images);
      assert images[..0] == [];
      FailureRecords(images[0]);
    }
  }

  /** One fetchable node: its URL is fetched, then the rest of the loop's. */
  lemma FetchedStep(images: seq<GalleryNode>)
    requires images != [] && Fetchable(images[0])
    ensures Fetched(GalleryLoop(images).0) == [images[0].imagePath.value] + Fetched(GalleryLoop(images[1..]).0)
  {
    GalleryLoopStep(images);
    var url := images[0].imagePath.value;
    var head := [ImageRequest(url)]
      + (if images[0].reply.code == 200 then [WriteImage(GalleryFileName(url))] else []);
    FetchedConcat(head, GalleryLoop(images[1..]).0);
    assert Fetched(head) == [url];
  }

  /** One fetchable node: its image is written if it came back with 200, then the rest of the loop's. */
  lemma WrittenStep(images: seq<GalleryNode>)
    requires images != [] && Fetchable(images[0])
    ensures Written(GalleryLoop(images).0) == SavedName(images[0]) + Written(GalleryLoop(images[1..]).0)
  {
    GalleryLoopStep(images);
    var url := images[0].imagePath.value;
    var head := [ImageRequest(url)]
      + (if images[0].reply.code == 200 then [WriteImage(GalleryFileName(url))] else []);
    WrittenConcat(head, GalleryLoop(images[1..]).0);
    assert Written(head) == SavedName(images[0]);
  }

  /** The steps of a loop that stops at its first node. */
  lemma FailureRecords(image: GalleryNode)
    requires !Fetchable(image)
    ensures Fetched(GalleryLoop([image]).0) == Attempted([image])
    ensures Written(GalleryLoop([image]).0) == []
  {
    var failure := [Notify(GalleryFailure)];
    assert Fetched(failure) == [] && Written(failure) == [] by { assert failure[1..] == []; }
    if image.imagePath.Some? {
      assert ([ImageRequest(image.imagePath.value)] + failure)[1..] == failure;
    }
  }

  lemma {:induction false} FetchedConcat(a: seq<Effect>, b: seq<Effect>)
    ensures Fetched(a + b) == Fetched(a) + Fetched(b)
  {
    if a != [] {
      FetchedConcat(a[1..], b);
      assert (a + b)[1..] == a[1..] + b;
    } else {
      assert a + b == b;
    }
  }

  lemma {:induction false} WrittenConcat(a: seq<Effect>, b: seq<Effect>)
    ensures Written(a + b) == Written(a) + Written(b)
  {
    if a != [] {
      WrittenConcat(a[1..], b);
      assert (a + b)[1..] == a[1..] + b;
    } else {
      assert a + b == b;
    }
  }

  /** A gallery whose count is below one (or absent) is not looped over: no
      image is fetched or written, and the bundle step follows the notice. */
  lemma EmptyGallerySkipsImages(bundleOption: string, folder: seq<string>, r: Replies)
    requires r.gallery.GalleryOk? && r.gallery.count.GetOr(0) < 1
    ensures AfterGallery(bundleOption, folder, r) == [Notify(NoGalleryImages)] + Bundle(bundleOption, folder, r.listing)
    ensures forall i :: 0 <= i < |AfterGallery(bundleOption, folder, r)| ==>
      !AfterGallery(bundleOption, folder, r)[i].ImageRequest? && !AfterGallery(bundleOption, folder, r)[i].WriteImage?
  {
  }
}
