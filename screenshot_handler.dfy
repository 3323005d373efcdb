/**
 * The screenshot API route: the guard chain on the request, then the
 * capture, temporary file, upload and clean-up pipeline, and the mapping
 * of its outcome to an HTTP response.
 *
 * Everything the route calls out to is an input: the `isUri` test of the
 * URL library, the outcome of the capture and of the upload, the random
 * id, the module's directory and the environment variables. The
 * filesystem is a `FileSystem` object whose files and directories the
 * route changes in place. The external calls the route makes are recorded
 * in a ghost trace of `Step`s.
 */
module ScreenshotHandler {
  import opened Wrappers

  type Bytes = seq<bv8>

  /** The query parameters the route reads. Their declared types are not
      enforced at run time, so each is an optional string. */
  datatype Query = Query(
    url: Option<string>,
    imageType: Option<string>,
    width: Option<string>,
    height: Option<string>,
    quality: Option<string>)

  /** The `x-api-key` header and the query. */
  datatype Request = Request(apiKey: Option<string>, query: Query)

  /** The `API_KEY` and `UPLOAD_URL` environment variables. */
  datatype Environment = Environment(apiKey: Option<string>, uploadUrl: Option<string>)

  /** What a rejected call throws: an HTTP error carrying the response of
      the remote end, or any other error with a message. */
  datatype Failure =
    | ResponseFailure(status: int, data: string)
    | PlainFailure(message: string)

  datatype Outcome<T> = Done(value: T) | Failed(failure: Failure)

  /** The fields the route reads from the upload service's answer. */
  datatype UploadData = UploadData(url: string, assetId: string, publicId: string)

  datatype AssetIds = AssetIds(asset: string, publicId: string)

  /** The status and JSON body the route sends. */
  datatype Response = Response(status: int, message: string, image: Option<string>, id: Option<AssetIds>)

  datatype CaptureOptions = CaptureOptions(
    height: Option<string>, quality: Option<string>, imageType: Option<string>, width: Option<string>)

  /** The external effects of one call, in the order they happen. */
  datatype Step =
    | Capture(url: string, options: CaptureOptions)
    | MakeDirectory(dir: string)
    | WriteFile(path: string)
    | Upload(target: string, path: string)
    | Unlink(path: string)

  // ---------------------------------------------------------------------
  // Values the route computes
  // ---------------------------------------------------------------------

  /** JavaScript truthiness of an optional string: present and not empty. */
  predicate Truthy(o: Option<string>): (r: bool)
    ensures r ==> o.Some?
    ensures o.Some? ==> (r <==> |o.value| > 0)
  {
    o.Some? && o.value != ""
  }

  /** `o || fallback`: the value when it is truthy, the fallback when it is
      missing or empty. */
  function OrElse(o: Option<string>, fallback: string): (r: string)
    ensures Truthy(o) ==> r == o.value
    ensures !Truthy(o) ==> r == fallback
  {
    if Truthy(o) then o.value else fallback
  }

  function Reply(status: int, message: string): Response {
    Response(status, message, None, None)
  }

  /** The four checks, in order; the first that fails answers the request.
      `None` lets the request through. */
  function Guard(req: Request, env: Environment, isUri: string -> bool): (r: Option<Response>)
    ensures r.None? <==>
      Truthy(req.apiKey) && req.apiKey == env.apiKey && Truthy(req.query.url) && isUri(req.query.url.value)
    ensures !Truthy(req.apiKey) ==> r == Some(Reply(400, "API Key is required"))
    ensures Truthy(req.apiKey) && req.apiKey != env.apiKey ==> r == Some(Reply(401, "Unauthorized"))
    ensures Truthy(req.apiKey) && req.apiKey == env.apiKey && !Truthy(req.query.url) ==>
      r == Some(Reply(400, "URL is required"))
    ensures Truthy(req.apiKey) && req.apiKey == env.apiKey && Truthy(req.query.url) && !isUri(req.query.url.value) ==>
      r == Some(Reply(400, "Invalid URL"))
  {
    if !Truthy(req.apiKey) then Some(Reply(400, "API Key is required"))
    else if req.apiKey != env.apiKey then Some(Reply(401, "Unauthorized"))
    else if !Truthy(req.query.url) then Some(Reply(400, "URL is required"))
    else if !isUri(req.query.url.value) then Some(Reply(400, "Invalid URL"))
    else None
  }

  /** The options handed to the capture: the query's, `type` as given. */
  function CaptureStep(q: Query): (r: Step)
    requires q.url.Some?
    ensures r.Capture? && r.url == q.url.value
    ensures r.options.height == q.height && r.options.quality == q.quality
    ensures r.options.imageType == q.imageType && r.options.width == q.width
  {
    Capture(q.url.value, CaptureOptions(q.height, q.quality, q.imageType, q.width))
  }

  /** `<id>.<type || "png">`: the id, a dot and the extension, which can
      be read back from the name. */
  function FileName(id: string, imageType: Option<string>): (name: string)
    ensures |name| > |id| && name[..|id|] == id && name[|id|] == '.'
    ensures Truthy(imageType) ==> name[|id| + 1..] == imageType.value
    ensures !Truthy(imageType) ==> name[|id| + 1..] == "png"
  {
    id + "." + OrElse(imageType, "png")
  }

  /** `path.join(__dirname, "public", "images")`: a directory below the
      module's directory. */
  function ImageDirectory(dirname: string): (d: string)
    ensures |d| > |dirname| && d[..|dirname|] == dirname && d[|dirname|..] == "/public/images"
  {
    dirname + "/public/images"
  }

  /** The path the image is written to: the name inside the image
      directory. */
  function WritePath(dirname: string, name: string): (p: string)
    ensures |p| == |ImageDirectory(dirname)| + 1 + |name|
    ensures p[..|ImageDirectory(dirname)|] == ImageDirectory(dirname) && p[|ImageDirectory(dirname)|] == '/'
    ensures p[|ImageDirectory(dirname)| + 1..] == name
  {
    ImageDirectory(dirname) + "/" + name
  }

  /** The relative path the image is uploaded from and deleted at: the
      name under `./public/images`, resolved from the working directory. */
  function LocalPath(name: string): (p: string)
    ensures |p| > 0 && p[0] != '/'
    ensures |p| == 16 + |name| && p[..16] == "./public/images/" && p[16..] == name
  {
    "./public/images/" + name
  }

  /** What `unlinkSync` throws for a path that names no file. */
  function UnlinkFailure(path: string): (f: Failure)
    ensures f.PlainFailure? && ErrorResponse(f).status == 500
    ensures ErrorResponse(f).message == f.message
  {
    PlainFailure("ENOENT: no such file or directory, unlink '" + path + "'")
  }

  /** The catch block: an error with a response passes on its status and
      data, any other error is a 500 with its message. */
  function ErrorResponse(f: Failure): (r: Response)
    ensures r.image.None? && r.id.None?
    ensures f.ResponseFailure? ==> r.status == f.status && r.message == f.data
    ensures f.PlainFailure? ==> r.status == 500 && r.message == f.message
  {
    match f
    case ResponseFailure(status, data) => Reply(status, data)
    case PlainFailure(message) => Reply(500, message)
  }

  /** The answer after a completed upload. */
  function SuccessResponse(d: UploadData): (r: Response)
    ensures r.status == 200 && r.message == "Here is your shot"
    ensures r.image == Some(d.url)
    ensures r.id == Some(AssetIds(d.assetId, d.publicId))
  {
    Response(200, "Here is your shot", Some(d.url), Some(AssetIds(d.assetId, d.publicId)))
  }

  // ---------------------------------------------------------------------
  // The filesystem
  // ---------------------------------------------------------------------

  /** The files and directories of the machine, keyed by absolute path,
      and the working directory relative paths are resolved against. */
  class FileSystem {
    const cwd: string
    var directories: set<string>
    var files: map<string, Bytes>

    constructor (cwd: string, directories: set<string>, files: map<string, Bytes>)
      ensures this.cwd == cwd && this.directories == directories && this.files == files
    {
      this.cwd := cwd;
      this.directories := directories;
      this.files := files;
    }

    /** An absolute path stays as it is; a relative one is taken from the
        working directory. */
    function Resolve(p: string): (r: string)
      ensures |p| > 0 && p[0] == '/' ==> r == p
      ensures !(|p| > 0 && p[0] == '/') ==> |r| > |cwd| && r[..|cwd|] == cwd && r[|cwd|] == '/'
    {
      if |p| > 0 && p[0] == '/' then p
      else if |p| >= 2 && p[..2] == "./" then cwd + p[1..]
      else cwd + "/" + p
    }

    /** `existsSync`: an absolute path is looked up as it is written. */
    predicate Exists(p: string): (r: bool)
      reads this
      ensures |p| > 0 && p[0] == '/' ==> (r <==> p in directories || p in files)
    {
      Resolve(p) in directories || Resolve(p) in files
    }

    /** `mkdirSync`. */
    method MakeDirectory(p: string)
      modifies this
      ensures directories == old(directories) + {Resolve(p)}
      ensures files == old(files)
    {
      directories := directories + {Resolve(p)};
    }

    /** `writeFileSync`: the file holds `data` afterwards, whatever it held
        before. */
    method WriteFile(p: string, data: Bytes)
      modifies this
      ensures files == old(files)[Resolve(p) := data]
      ensures directories == old(directories)
    {
      files := files[Resolve(p) := data];
    }

    /** `unlinkSync`: removes the file, or fails when there is none. */
    method Unlink(p: string) returns (error: Option<Failure>)
      modifies this
      ensures Resolve(p) in old(files) ==> error.None? && files == old(files) - {Resolve(p)}
      ensures Resolve(p) !in old(files) ==> error == Some(UnlinkFailure(p)) && files == old(files)
      ensures directories == old(directories)
    {
      if Resolve(p) in files {
        files := files - {Resolve(p)};
        error := None;
      } else {
        error := Some(UnlinkFailure(p));
      }
    }
  }

  /** The written file and the deleted file are the same file exactly when
      the process runs in the module's own directory. */
  lemma SameFileIffSameDirectory(fs: FileSystem, dirname: string, name: string)
    requires |dirname| > 0 && dirname[0] == '/'
    ensures fs.Resolve(LocalPath(name)) == fs.Resolve(WritePath(dirname, name)) <==> fs.cwd == dirname
  {
    var suffix := "/public/images/" + name;
    assert LocalPath(name)[1..] == suffix;
    assert fs.Resolve(LocalPath(name)) == fs.cwd + suffix;
    assert WritePath(dirname, name) == dirname + suffix;
    if fs.cwd + suffix == dirname + suffix {
      assert fs.cwd == (fs.cwd + suffix)[..|fs.cwd|];
      assert dirname == (dirname + suffix)[..|dirname|];
    }
  }

  // ---------------------------------------------------------------------
  // The route
  // ---------------------------------------------------------------------

  /** One call of the route. `capture` and `upload` are what the screenshot
      library and the upload request resolve or reject with, `id` the
      random id and `dirname` the module's directory. */
  method Handle(
    fs: FileSystem, req: Request, env: Environment, isUri: string -> bool,
    capture: Outcome<Bytes>, id: string, dirname: string, upload: Outcome<UploadData>)
    returns (resp: Response, ghost steps: seq<Step>)
    modifies fs
    // A failed check answers before anything else happens.
    ensures Guard(req, env, isUri).Some? ==>
      resp == Guard(req, env, isUri).value && steps == [] &&
      fs.files == old(fs.files) && fs.directories == old(fs.directories)
    // The capture is the first effect, and it happens once.
    ensures Guard(req, env, isUri).None? ==> |steps| > 0 && steps[0] == CaptureStep(req.query)
    ensures forall i :: 0 < i < |steps| ==> !steps[i].Capture?
    ensures Guard(req, env, isUri).None? && capture.Failed? ==>
      resp == ErrorResponse(capture.failure) && steps == [CaptureStep(req.query)] &&
      fs.files == old(fs.files) && fs.directories == old(fs.directories)
    // After a capture: directory, write, upload, delete, response.
    ensures Guard(req, env, isUri).None? && capture.Done? ==>
      Delivered(old(fs.files), old(fs.directories), old(fs.Exists(ImageDirectory(dirname))), fs,
        capture.value, FileName(id, req.query.imageType), dirname, OrElse(env.uploadUrl, ""), upload,
        resp, steps[1..])
  {
    steps := [];
    var rejection := Guard(req, env, isUri);
    if rejection.Some? {
      return rejection.value, steps;
    }
    steps := steps + [CaptureStep(req.query)];
    if capture.Failed? {
      return ErrorResponse(capture.failure), steps;
    }
    ghost var rest;
    resp, rest := Deliver(fs, capture.value, FileName(id, req.query.imageType), dirname, OrElse(env.uploadUrl, ""), upload);
    steps := steps + rest;
  }

  /** What the route does with a captured image named `name`, from the
      files and directories before and whether the image directory was
      there: the effects in order, the files and directories after, and
      the response. */
  ghost predicate Delivered(
    files0: map<string, Bytes>, directories0: set<string>, dirExisted: bool, fs: FileSystem,
    image: Bytes, name: string, dirname: string, target: string, upload: Outcome<UploadData>,
    resp: Response, steps: seq<Step>)
    reads fs
  {
    var dir := ImageDirectory(dirname);
    var written := files0[fs.Resolve(WritePath(dirname, name)) := image];
    var local := fs.Resolve(LocalPath(name));
    steps == DeliverySteps(dirExisted, dirname, name, target, upload.Done?) &&
    fs.directories == (if dirExisted then directories0 else directories0 + {fs.Resolve(dir)}) &&
    (upload.Failed? ==> resp == ErrorResponse(upload.failure) && fs.files == written) &&
    (upload.Done? && local in written ==> resp == SuccessResponse(upload.value) && fs.files == written - {local}) &&
    (upload.Done? && local !in written ==> resp == ErrorResponse(UnlinkFailure(LocalPath(name))) && fs.files == written)
  }

  /** The effects after a capture, in order: make the directory, write,
      upload, delete. The upload reads the file at
      the path that is then deleted, and the deletion, when the upload
      succeeded, is the last effect. */
  function DeliverySteps(dirExisted: bool, dirname: string, name: string, target: string, uploaded: bool): (steps: seq<Step>)
    ensures |steps| == (if dirExisted then 1 else 2) + (if uploaded then 2 else 1)
    ensures forall i :: 0 <= i < |steps| && steps[i].Upload? ==> steps[i] == Upload(target, LocalPath(name))
    ensures forall i :: 0 <= i < |steps| && steps[i].Unlink? ==> steps[i].path == LocalPath(name)
    ensures uploaded ==> steps[|steps| - 1] == Unlink(LocalPath(name))
    ensures !uploaded ==> forall i :: 0 <= i < |steps| ==> !steps[i].Unlink?
    ensures forall i :: 0 <= i < |steps| && steps[i].WriteFile? ==> steps[i].path == WritePath(dirname, name)
    ensures forall i :: 0 <= i < |steps| ==> !steps[i].Capture?
    ensures forall i :: 0 <= i < |steps| && steps[i].MakeDirectory? ==>
      i == 0 && !dirExisted && steps[i] == MakeDirectory(ImageDirectory(dirname))
    ensures !dirExisted ==> steps[0] == MakeDirectory(ImageDirectory(dirname))
    ensures steps[|steps| - (if uploaded then 3 else 2)] == WriteFile(WritePath(dirname, name))
    ensures steps[|steps| - (if uploaded then 2 else 1)] == Upload(target, LocalPath(name))
  {
    var write, upload, unlink := WriteFile(WritePath(dirname, name)), Upload(target, LocalPath(name)), Unlink(LocalPath(name));
    var mkdir := MakeDirectory(ImageDirectory(dirname));
    if dirExisted then (if uploaded then [write, upload, unlink] else [write, upload])
    else (if uploaded then [mkdir, write, upload, unlink] else [mkdir, write, upload])
  }

  /** The steps after a capture are those of storing the image followed by
      those of publishing it. */
  lemma DeliveryStepsJoin(dirExisted: bool, dirname: string, name: string, target: string, uploaded: bool)
    ensures DeliverySteps(dirExisted, dirname, name, target, uploaded) ==
      StoreSteps(dirExisted, dirname, name) + PublishSteps(name, target, uploaded)
  {
  }

  /** Make the directory when it was missing, then write. */
  function StoreSteps(dirExisted: bool, dirname: string, name: string): (steps: seq<Step>)
    ensures |steps| == if dirExisted then 1 else 2
    ensures !dirExisted ==> steps[0] == MakeDirectory(ImageDirectory(dirname))
    ensures steps[|steps| - 1] == WriteFile(WritePath(dirname, name))
  {
    (if dirExisted then [] else [MakeDirectory(ImageDirectory(dirname))]) + [WriteFile(WritePath(dirname, name))]
  }

  /** Upload, then delete when the upload completed. */
  function PublishSteps(name: string, target: string, uploaded: bool): (steps: seq<Step>)
    ensures |steps| == if uploaded then 2 else 1
    ensures steps[0] == Upload(target, LocalPath(name))
    ensures uploaded ==> steps[1] == Unlink(LocalPath(name))
  {
    [Upload(target, LocalPath(name))] + (if uploaded then [Unlink(LocalPath(name))] else [])
  }

  /** After a successful capture: make the directory, write, upload,
      delete, answer. */
  method Deliver(fs: FileSystem, image: Bytes, name: string, dirname: string, target: string, upload: Outcome<UploadData>)
    returns (resp: Response, ghost steps: seq<Step>)
    modifies fs
    ensures Delivered(old(fs.files), old(fs.directories), old(fs.Exists(ImageDirectory(dirname))), fs,
      image, name, dirname, target, upload, resp, steps)
  {
    DeliveryStepsJoin(old(fs.Exists(ImageDirectory(dirname))), dirname, name, target, upload.Done?);
    steps := StoreImage(fs, dirname, name, image);
    ghost var published;
    resp, published := PublishImage(fs, name, target, upload);
    steps := steps + published;
  }

  /** Make the image directory when it is missing, then write
      the image into it. */
  method StoreImage(fs: FileSystem, dirname: string, name: string, image: Bytes)
    returns (ghost steps: seq<Step>)
    modifies fs
    ensures steps == StoreSteps(old(fs.Exists(ImageDirectory(dirname))), dirname, name)
    ensures fs.files == old(fs.files)[fs.Resolve(WritePath(dirname, name)) := image]
    ensures fs.directories ==
      if old(fs.Exists(ImageDirectory(dirname))) then old(fs.directories)
      else old(fs.directories) + {fs.Resolve(ImageDirectory(dirname))}
  {
    var dir := ImageDirectory(dirname);
    steps := [];
    if !fs.Exists(dir) {
      fs.MakeDirectory(dir);
      steps := [MakeDirectory(dir)];
    }
    fs.WriteFile(WritePath(dirname, name), image);
    steps := steps + [WriteFile(WritePath(dirname, name))];
  }

  /** Upload the file at the relative path, delete the file
      at that same path, and answer with what the upload returned. */
  method PublishImage(fs: FileSystem, name: string, target: string, upload: Outcome<UploadData>)
    returns (resp: Response, ghost steps: seq<Step>)
    modifies fs
    ensures steps == PublishSteps(name, target, upload.Done?)
    ensures upload.Failed? ==> resp == ErrorResponse(upload.failure) && fs.files == old(fs.files)
    ensures upload.Done? && fs.Resolve(LocalPath(name)) in old(fs.files) ==>
      resp == SuccessResponse(upload.value) && fs.files == old(fs.files) - {fs.Resolve(LocalPath(name))}
    ensures upload.Done? && fs.Resolve(LocalPath(name)) !in old(fs.files) ==>
      resp == ErrorResponse(UnlinkFailure(LocalPath(name))) && fs.files == old(fs.files)
    ensures fs.directories == old(fs.directories)
  {
    var local := LocalPath(name);
    steps := [Upload(target, local)];
    if upload.Failed? {
      return ErrorResponse(upload.failure), steps;
    }
    var unlinkError := fs.Unlink(local);
    steps := steps + [Unlink(local)];
    if unlinkError.Some? {
      return ErrorResponse(unlinkError.value), steps;
    }
    resp := SuccessResponse(upload.value);
  }

  /** Written under `.`, the image lands at the relative path. */
  lemma WritePathInCurrentDirectory(name: string)
    ensures WritePath(".", name) == LocalPath(name)
  {
    assert ImageDirectory(".") + "/" == "./public/images/";
  }

  /** The corrected form of the steps after a capture: the image is written
      under the same relative `./public/images` it is uploaded from and
      deleted at. Then a completed upload always ends in a 200, and the
      temporary file never stays behind. */
  method DeliverAtOnePath(fs: FileSystem, image: Bytes, name: string, target: string, upload: Outcome<UploadData>)
    returns (resp: Response, ghost steps: seq<Step>)
    modifies fs
    ensures steps == DeliverySteps(old(fs.Exists(ImageDirectory("."))), ".", name, target, upload.Done?)
    ensures upload.Failed? ==>
      resp == ErrorResponse(upload.failure) && fs.files == old(fs.files)[fs.Resolve(LocalPath(name)) := image]
    ensures upload.Done? ==>
      resp == SuccessResponse(upload.value) && fs.files == old(fs.files) - {fs.Resolve(LocalPath(name))}
    ensures fs.directories ==
      if old(fs.Exists(ImageDirectory("."))) then old(fs.directories)
      else old(fs.directories) + {fs.Resolve(ImageDirectory("."))}
  {
    WritePathInCurrentDirectory(name);
    resp, steps := Deliver(fs, image, name, ".", target, upload);
  }

  // ---------------------------------------------------------------------
  // What happens to the temporary file
  // ---------------------------------------------------------------------

  /** A 200 comes only after the deletion of the file at the relative
      path succeeded: the file was there, and it is gone. */
  lemma SuccessOnlyAfterDeletion(
    files0: map<string, Bytes>, directories0: set<string>, dirExisted: bool, fs: FileSystem,
    image: Bytes, name: string, dirname: string, target: string, upload: Outcome<UploadData>,
    resp: Response, steps: seq<Step>)
    requires Delivered(files0, directories0, dirExisted, fs, image, name, dirname, target, upload, resp, steps)
    requires upload.Done?
    ensures resp.status == 200 <==> fs.Resolve(LocalPath(name)) in files0[fs.Resolve(WritePath(dirname, name)) := image]
    ensures resp.status == 200 ==> resp == SuccessResponse(upload.value) && fs.Resolve(LocalPath(name)) !in fs.files
    ensures resp.status != 200 ==> resp == ErrorResponse(UnlinkFailure(LocalPath(name))) && resp.status == 500
  {
  }

  /** The written file is deleted exactly when the process runs in the
      module's directory; otherwise it stays behind, and the response is a
      200 only if some other file happened to sit at the relative path. */
  lemma WrittenFileRemovedIffSameDirectory(
    files0: map<string, Bytes>, directories0: set<string>, dirExisted: bool, fs: FileSystem,
    image: Bytes, name: string, dirname: string, target: string, upload: Outcome<UploadData>,
    resp: Response, steps: seq<Step>)
    requires Delivered(files0, directories0, dirExisted, fs, image, name, dirname, target, upload, resp, steps)
    requires upload.Done? && |dirname| > 0 && dirname[0] == '/'
    ensures fs.Resolve(WritePath(dirname, name)) !in fs.files <==> fs.cwd == dirname
    ensures fs.cwd == dirname ==> resp == SuccessResponse(upload.value)
  {
    SameFileIffSameDirectory(fs, dirname, name);
  }
}
