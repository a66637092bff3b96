/**
 * The "Clip raster by layer" algorithm: the `gdalwarp` command line it assembles from its
 * parameters, the check it makes of the clipping layer's CRS, and its table of output data types.
 *
 * The GDAL helpers the algorithm calls are collected, uninterpreted, in `GdalUtils`; the argument
 * list is specified by the decoder `Decode`, which reads the list back into the settings it carries.
 */
module RasterClip {
  import opened Wrappers

  /** `TYPES`: the choices of the output data type; index 0 keeps the input layer's type. */
  const Types: seq<string> :=
    ["Use Input Layer Data Type", "Byte", "Int16", "UInt16", "UInt32", "Int32",
     "Float32", "Float64", "CInt16", "CInt32", "CFloat32", "CFloat64"]

  /** The name of the command the algorithm runs. */
  const CommandName := "gdalwarp"

  /** A coordinate reference system, reduced to what the algorithm asks of it. */
  datatype Crs = Crs(wkt: string, isValid: bool)

  /** The input raster layer: its data source and its CRS. */
  datatype RasterLayer = RasterLayer(source: string, crs: Crs)

  /**
   * The helpers the algorithm takes from GDAL and QGIS.
   * - crsString(c):           GdalUtils.gdal_crs_string(c)
   * - formatDouble(v):        the text `'{}'.format(v)` gives for a float
   * - driverForOutput(out):   QgsRasterFileWriter.driverForExtension of the output's extension
   * - parseCreationOptions(o): GdalUtils.parseCreationOptions(o)
   * - escapeAndJoin(args):    GdalUtils.escapeAndJoin(args)
   */
  datatype GdalUtils = GdalUtils(
    crsString: Crs -> string,
    formatDouble: real -> string,
    driverForOutput: string -> string,
    parseCreationOptions: string -> seq<string>,
    escapeAndJoin: seq<string> -> string)

  /**
   * The parameter values as the algorithm reads them.
   * `input` is the raster layer `INPUT` resolves to (`None` when it resolves to none) and
   * `inputValue` the text of the `INPUT` entry when the parameters hold one; `clipPath` and
   * `clipLayerName` are the clipping layer's compatible path and layer name; `nodata` is `None`
   * when `NODATA` is absent or `None`; `extra` is `None` when `EXTRA` is absent or `None`.
   */
  datatype Parameters = Parameters(
    input: Option<RasterLayer>,
    inputValue: Option<string>,
    clipPath: string,
    clipLayerName: string,
    overrideCrs: bool,
    nodata: Option<real>,
    options: string,
    dataType: nat,
    extra: Option<string>,
    output: string)

  /** The settings one `gdalwarp` argument list carries, as `Decode` reads them. */
  datatype Warp = Warp(
    cutline: string,
    layerName: string,
    sourceSrs: Option<string>,
    srcNodata: Option<string>,
    outputType: Option<string>,
    format: string,
    creationOptions: seq<string>,
    extra: Option<string>,
    source: string,
    destination: string)

  /** The creation options the argument list carries: parsed only when the options text is not empty. */
  function CreationOptions(utils: GdalUtils, options: string): (r: seq<string>)
    ensures options == "" ==> r == []
  {
    if options != "" then utils.parseCreationOptions(options) else []
  }

  /**
   * The settings the argument list for `p` and the input layer `layer` is meant to carry:
   * the projection only when overriding a valid CRS, the nodata value only when given, the data
   * type only for a non-zero index, the extra parameters only when neither `None` nor empty.
   */
  function Expected(utils: GdalUtils, p: Parameters, layer: RasterLayer): (w: Warp)
    requires p.dataType < |Types|
    ensures w.sourceSrs.Some? <==> p.overrideCrs && layer.crs.isValid
    ensures w.srcNodata.Some? <==> p.nodata.Some?
    ensures w.outputType.Some? <==> p.dataType != 0
    ensures w.outputType != Some(Types[0])
    ensures w.extra.Some? <==> p.extra.Some? && p.extra.value != ""
    ensures w.source == layer.source && w.destination == p.output
  {
    Warp(
      p.clipPath,
      p.clipLayerName,
      if p.overrideCrs && layer.crs.isValid then Some(utils.crsString(layer.crs)) else None,
      if p.nodata.Some? then Some(utils.formatDouble(p.nodata.value)) else None,
      if p.dataType != 0 then Some(Types[p.dataType]) else None,
      utils.driverForOutput(p.output),
      CreationOptions(utils, p.options),
      if p.extra.Some? && p.extra.value != "" then p.extra else None,
      layer.source,
      p.output)
  }

  /** `s` with `prefix` removed, when `s` starts with it. */
  function StripPrefix(prefix: string, s: string): (r: Option<string>)
    ensures r.Some? <==> prefix <= s
    ensures r.Some? ==> s == prefix + r.value
  {
    if prefix <= s then Some(s[|prefix|..]) else None
  }

  /**
   * Reads an optional flag-with-value argument (`"-s_srs …"`, `"-srcnodata …"`, `"-ot …"`) at the
   * head of `args`: its value and the arguments after it, or `None` and `args` itself.
   */
  function Optional(prefix: string, args: seq<string>): (r: (Option<string>, seq<string>))
    ensures r.0.None? ==> r.1 == args
    ensures r.0.Some? ==> args != [] && args[0] == prefix + r.0.value && r.1 == args[1..]
  {
    if args != [] && StripPrefix(prefix, args[0]).Some? then
      (StripPrefix(prefix, args[0]), args[1..])
    else
      (None, args)
  }

  /** The arguments from `"-of"` on, as `DecodeTail` reads them. */
  datatype Tail = Tail(format: string, creationOptions: seq<string>, extra: Option<string>, source: string, destination: string)

  /**
   * Reads the arguments from `"-of"` on, given how many creation options they hold: the format,
   * the options, at most one extra argument, the input source and the output path.
   */
  function DecodeTail(c: seq<string>, nOptions: nat): (r: Option<Tail>)
    ensures r.Some? ==> |r.value.creationOptions| == nOptions
  {
    if |c| < 4 + nOptions || c[0] != "-of" then None
    else
      var rest := c[2 + nOptions..];
      if |rest| == 2 then Some(Tail(c[1], c[2..2 + nOptions], None, rest[0], rest[1]))
      else if |rest| == 3 then Some(Tail(c[1], c[2..2 + nOptions], Some(rest[0]), rest[1], rest[2]))
      else None
  }

  /**
   * Reads a `gdalwarp` argument list back into its settings, given how many creation options it
   * holds; `None` when the list does not have the shape the algorithm produces.
   */
  function Decode(args: seq<string>, nOptions: nat): (r: Option<Warp>)
    ensures r.Some? ==> |args| >= 5 && args[0] == "-cutline" && args[2] == "-cl" && args[4] == "-crop_to_cutline"
    ensures r.Some? ==> |r.value.creationOptions| == nOptions
  {
    if |args| < 5 || args[0] != "-cutline" || args[2] != "-cl" || args[4] != "-crop_to_cutline" then None
    else
      var (srs, a) := Optional("-s_srs ", args[5..]);
      var (nodata, b) := Optional("-srcnodata ", a);
      var (outputType, c) := Optional("-ot ", b);
      match DecodeTail(c, nOptions)
      case None => None
      case Some(t) =>
        Some(Warp(args[1], args[3], srs, nodata, outputType, t.format, t.creationOptions, t.extra, t.source, t.destination))
  }

  /** No argument the list may hold after `"-s_srs …"` starts with `"-s_srs "`. */
  lemma NotSourceSrs(x: string)
    ensures !("-s_srs " <= "-srcnodata " + x) && !("-s_srs " <= "-ot " + x) && !("-s_srs " <= "-of")
  {
    assert ("-srcnodata " + x)[2] == 'r';
    assert ("-ot " + x)[1] == 'o';
  }

  /** No argument the list may hold after `"-srcnodata …"` starts with `"-srcnodata "`. */
  lemma NotSrcNodata(x: string)
    ensures !("-srcnodata " <= "-ot " + x) && !("-srcnodata " <= "-of")
  {
    assert ("-ot " + x)[1] == 'o';
  }

  /** The optional argument `"<flag><value>"`, present only when there is a value. */
  function Flagged(flag: string, value: Option<string>): (r: seq<string>)
    ensures |r| <= 1 && (r != [] <==> value.Some?)
  {
    if value.Some? then [flag + value.value] else []
  }

  /** Reading an optional argument back gives its value, when what follows does not start with its flag. */
  lemma {:induction false} OptionalRoundTrip(flag: string, value: Option<string>, rest: seq<string>)
    requires rest != [] && !(flag <= rest[0])
    ensures Optional(flag, Flagged(flag, value) + rest) == (value, rest)
  {
    var args := Flagged(flag, value) + rest;
    if value.Some? {
      assert args[0] == flag + value.value;
      assert (flag + value.value)[|flag|..] == value.value;
      assert args[1..] == rest;
    } else {
      assert args == rest;
    }
  }

  /** The arguments from `"-of"` on read back into their parts. */
  lemma {:induction false} TailRoundTrip(format: string, options: seq<string>, extra: seq<string>, source: string, destination: string)
    requires |extra| <= 1
    ensures DecodeTail(["-of"] + [format] + options + extra + [source] + [destination], |options|)
              == Some(Tail(format, options, if extra == [] then None else Some(extra[0]), source, destination))
  {
    var tail := ["-of"] + [format] + options + extra + [source] + [destination];
    var n := |options|;
    assert tail[0] == "-of" && tail[1] == format;
    assert tail[2..2 + n] == options;
    assert tail[2 + n..] == extra + [source, destination];
  }

  /**
   * A list made of the cutline arguments, the three optional arguments and a tail starting with
   * `"-of"` is read back into the optional values and what the tail decodes to.
   */
  lemma {:induction false} HeadRoundTrip(fixed: seq<string>, srs: Option<string>, nodata: Option<string>,
                                         outputType: Option<string>, tail: seq<string>, nOptions: nat)
    requires |fixed| == 5 && fixed[0] == "-cutline" && fixed[2] == "-cl" && fixed[4] == "-crop_to_cutline"
    requires tail != [] && tail[0] == "-of" && DecodeTail(tail, nOptions).Some?
    ensures var t := DecodeTail(tail, nOptions).value;
            Decode(fixed + (Flagged("-s_srs ", srs) + (Flagged("-srcnodata ", nodata) + (Flagged("-ot ", outputType) + tail))), nOptions)
              == Some(Warp(fixed[1], fixed[3], srs, nodata, outputType, t.format, t.creationOptions, t.extra, t.source, t.destination))
  {
    var r2 := Flagged("-ot ", outputType) + tail;
    var r1 := Flagged("-srcnodata ", nodata) + r2;
    var r0 := Flagged("-s_srs ", srs) + r1;
    var args := fixed + r0;
    assert args[5..] == r0;
    assert args[1] == fixed[1] && args[3] == fixed[3];
    NotSrcNodata("");
    NotSourceSrs("");
    assert !("-ot " <= "-of");
    OptionalRoundTrip("-ot ", outputType, tail);
    if outputType.Some? {
      NotSrcNodata(outputType.value);
      NotSourceSrs(outputType.value);
    }
    OptionalRoundTrip("-srcnodata ", nodata, r2);
    if nodata.Some? {
      NotSourceSrs(nodata.value);
    }
    OptionalRoundTrip("-s_srs ", srs, r1);
  }

  /** Appending the parts of a list one by one or grouped as the decoder reads them gives the same list. */
  lemma Regroup<T>(fixed: seq<T>, a: seq<T>, b: seq<T>, c: seq<T>,
                   t0: seq<T>, t1: seq<T>, t2: seq<T>, t3: seq<T>, t4: seq<T>, t5: seq<T>)
    ensures fixed + a + b + c + t0 + t1 + t2 + t3 + t4 + t5
            == fixed + (a + (b + (c + (t0 + t1 + t2 + t3 + t4 + t5))))
  {
  }

  /** The extra parameters as an argument: present only when neither `None` nor empty. */
  function ExtraArgument(extra: Option<string>): (r: seq<string>)
    ensures |r| <= 1 && (r != [] <==> extra.Some? && extra.value != "")
  {
    if extra.Some? && extra.value != "" then [extra.value] else []
  }

  /** The argument list the appends of `getConsoleCommands` build, part by part in their order. */
  ghost function Arguments(utils: GdalUtils, p: Parameters, layer: RasterLayer): seq<string>
    requires p.dataType < |Types|
  {
    var w := Expected(utils, p, layer);
    ["-cutline", p.clipPath, "-cl", p.clipLayerName, "-crop_to_cutline"]
      + Flagged("-s_srs ", w.sourceSrs) + Flagged("-srcnodata ", w.srcNodata) + Flagged("-ot ", w.outputType)
      + ["-of"] + [w.format] + w.creationOptions + ExtraArgument(p.extra) + [layer.source] + [p.output]
  }

  /** The argument list starts with the cutline arguments, ends with source and output, and decodes to `Expected`. */
  lemma ArgumentsDecode(utils: GdalUtils, p: Parameters, layer: RasterLayer)
    requires p.dataType < |Types|
    ensures var args := Arguments(utils, p, layer);
            |args| >= 9
            && args[..5] == ["-cutline", p.clipPath, "-cl", p.clipLayerName, "-crop_to_cutline"]
            && args[|args| - 2..] == [layer.source, p.output]
            && Decode(args, |CreationOptions(utils, p.options)|) == Some(Expected(utils, p, layer))
  {
    var w := Expected(utils, p, layer);
    var fixed := ["-cutline", p.clipPath, "-cl", p.clipLayerName, "-crop_to_cutline"];
    var extra := ExtraArgument(p.extra);
    var tail := ["-of"] + [w.format] + w.creationOptions + extra + [layer.source] + [p.output];
    var args := Arguments(utils, p, layer);
    assert tail[0] == "-of";
    assert tail[|tail| - 2..] == [layer.source, p.output];
    TailRoundTrip(w.format, w.creationOptions, extra, layer.source, p.output);
    HeadRoundTrip(fixed, w.sourceSrs, w.srcNodata, w.outputType, tail, |w.creationOptions|);
    Regroup(fixed, Flagged("-s_srs ", w.sourceSrs), Flagged("-srcnodata ", w.srcNodata), Flagged("-ot ", w.outputType),
            ["-of"], [w.format], w.creationOptions, extra, [layer.source], [p.output]);
  }

  /**
   * The argument list of `getConsoleCommands`, built by successive appends: the cutline
   * arguments, then each optional argument in its fixed order, the output format, the creation
   * options, the extra parameters, the input source and the output path. Decoding it gives back
   * exactly the settings `Expected` names.
   */
  method ArgumentList(utils: GdalUtils, p: Parameters, layer: RasterLayer) returns (args: seq<string>)
    requires p.dataType < |Types|
    ensures |args| >= 9
    ensures args[..5] == ["-cutline", p.clipPath, "-cl", p.clipLayerName, "-crop_to_cutline"]
    ensures args[|args| - 2..] == [layer.source, p.output]
    ensures Decode(args, |CreationOptions(utils, p.options)|) == Some(Expected(utils, p, layer))
  {
    args := ["-cutline", p.clipPath, "-cl", p.clipLayerName, "-crop_to_cutline"];
    ghost var w := Expected(utils, p, layer);
    ghost var built := args;
    if p.overrideCrs && layer.crs.isValid {
      args := args + ["-s_srs " + utils.crsString(layer.crs)];
    }
    assert args == built + Flagged("-s_srs ", w.sourceSrs);
    built := args;
    if p.nodata.Some? {
      args := args + ["-srcnodata " + utils.formatDouble(p.nodata.value)];
    }
    assert args == built + Flagged("-srcnodata ", w.srcNodata);
    built := args;
    if p.dataType != 0 {
      args := args + ["-ot " + Types[p.dataType]];
    }
    assert args == built + Flagged("-ot ", w.outputType);
    args := args + ["-of"];
    args := args + [utils.driverForOutput(p.output)];
    built := args;
    if p.options != "" {
      args := args + utils.parseCreationOptions(p.options);
    }
    assert args == built + w.creationOptions;
    built := args;
    if p.extra.Some? && p.extra.value != "" {
      args := args + [p.extra.value];
    }
    assert args == built + ExtraArgument(p.extra);
    args := args + [layer.source];
    args := args + [p.output];
    ArgumentsDecode(utils, p, layer);
  }

  /**
   * `getConsoleCommands`: fails with "Invalid input layer …" (naming the `INPUT` entry, or
   * `INPUT` when there is none) when the input raster does not resolve; otherwise the command
   * name and the escaped, joined argument list.
   */
  method GetConsoleCommands(utils: GdalUtils, p: Parameters) returns (r: Result<seq<string>, string>)
    requires p.dataType < |Types|
    ensures p.input.None? ==>
              r == Failure("Invalid input layer " + (if p.inputValue.Some? then p.inputValue.value else "INPUT"))
    ensures p.input.Some? ==>
              exists args :: Decode(args, |CreationOptions(utils, p.options)|) == Some(Expected(utils, p, p.input.value))
                             && r == Success([CommandName, utils.escapeAndJoin(args)])
  {
    if p.input.None? {
      var shown := if p.inputValue.Some? then p.inputValue.value else "INPUT";
      return Failure("Invalid input layer " + shown);
    }
    var args := ArgumentList(utils, p, p.input.value);
    r := Success([CommandName, utils.escapeAndJoin(args)]);
  }

  /**
   * `checkParameterValues`: an invalid CRS on the clipping layer is refused with its own message;
   * otherwise the verdict of the inherited check stands. Without a clipping layer the CRS cannot
   * be read and the check fails.
   */
  function CheckParameterValues(clipCrs: Option<Crs>, inherited: (bool, string)): (r: Result<(bool, string), string>)
    ensures r.Failure? <==> clipCrs.None?
    ensures clipCrs.Some? && !clipCrs.value.isValid ==> r == Success((false, "Vector layer CRS must be valid."))
    ensures clipCrs.Some? && clipCrs.value.isValid ==> r == Success(inherited)
  {
    match clipCrs
    case None => Failure("'NoneType' object has no attribute 'crs'")
    case Some(crs) =>
      if !crs.isValid then Success((false, "Vector layer CRS must be valid.")) else Success(inherited)
  }
}
