/**
 * The run configuration and parse_arg, which applies one "key=value"
 * command-line argument to it. The three programs carry identical copies.
 *
 * The library conversions atoi and atof are not modelled: they are passed
 * in as arbitrary functions, so nothing below depends on what they compute.
 */
module Options {
  import opened Text

  datatype Config = Config(
    width: int,
    height: int,
    png: bool,
    llX: real,
    llY: real,
    urX: real,
    urY: real,
    maxIter: int)

  datatype Option<T> = None | Some(value: T)

  /** The argument split at its first '=', or None when it has none. */
  function SplitArg(arg: string): (r: Option<(string, string)>)
  {
    var i := IndexOf(arg, '=');
    if i == |arg| then None else Some((arg[..i], arg[i + 1..]))
  }

  /** The keys parse_arg recognises, in the order it compares them. */
  const Keys: seq<string> := ["width", "height", "png", "ll_x", "ll_y", "ur_x", "ur_y", "max_iter"]

  /** The configuration parse_arg leaves behind for `arg`. */
  function ApplyArg(arg: string, cfg: Config, atoi: string -> int, atof: string -> real): Config
  {
    match SplitArg(arg)
    case None => cfg
    case Some((key, value)) =>
      if key == "width" then cfg.(width := atoi(value))
      else if key == "height" then cfg.(height := atoi(value))
      else if key == "png" then cfg.(png := atoi(value) != 0)
      else if key == "ll_x" then cfg.(llX := atof(value))
      else if key == "ll_y" then cfg.(llY := atof(value))
      else if key == "ur_x" then cfg.(urX := atof(value))
      else if key == "ur_y" then cfg.(urY := atof(value))
      else if key == "max_iter" then cfg.(maxIter := atoi(value))
      else cfg
  }

  /** The argument is cut at its FIRST '=': the key never holds one, the value may. */
  lemma SplitAtFirstEquals(arg: string)
    ensures SplitArg(arg) == None <==> '=' !in arg
    ensures SplitArg(arg).Some? ==>
      var (key, value) := SplitArg(arg).value;
      arg == key + "=" + value && '=' !in key
  {
    var i := IndexOf(arg, '=');
    if i < |arg| {
      assert arg == arg[..i] + "=" + arg[i + 1..];
    }
  }

  /** An argument without '=' and an unknown key both leave the configuration alone. */
  lemma IgnoredArguments(arg: string, cfg: Config, atoi: string -> int, atof: string -> real)
    requires '=' !in arg || SplitArg(arg).value.0 !in Keys
    ensures ApplyArg(arg, cfg, atoi, atof) == cfg
  {
    SplitAtFirstEquals(arg);
  }

  /**
   * A field changes only when its own key is named, and then it takes the
   * converted value; every other field keeps its old value.
   */
  lemma OnlyNamedFieldChanges(arg: string, cfg: Config, atoi: string -> int, atof: string -> real)
    ensures var r := ApplyArg(arg, cfg, atoi, atof);
      var named := (k: string) => SplitArg(arg).Some? && SplitArg(arg).value.0 == k;
      var value := if SplitArg(arg).Some? then SplitArg(arg).value.1 else "";
      && (if named("width") then r.width == atoi(value) else r.width == cfg.width)
      && (if named("height") then r.height == atoi(value) else r.height == cfg.height)
      && (if named("png") then r.png == (atoi(value) != 0) else r.png == cfg.png)
      && (if named("ll_x") then r.llX == atof(value) else r.llX == cfg.llX)
      && (if named("ll_y") then r.llY == atof(value) else r.llY == cfg.llY)
      && (if named("ur_x") then r.urX == atof(value) else r.urX == cfg.urX)
      && (if named("ur_y") then r.urY == atof(value) else r.urY == cfg.urY)
      && (if named("max_iter") then r.maxIter == atoi(value) else r.maxIter == cfg.maxIter)
  {
  }

  /** The C string held in `s`: the characters before the first NUL, as strcmp sees them. */
  function CString(s: string): string
  {
    s[..IndexOf(s, '\0')]
  }

  /**
   * parse_arg: finds the first '=' (strchr), overwrites it with NUL so that
   * the key reads as a C string of its own, dispatches on the key, and puts
   * the '=' back. The configuration, which C updates through a pointer, is
   * returned; the argument, which C edits in place, is an array.
   */
  method ParseArg(arg: array<char>, cfg: Config, atoi: string -> int, atof: string -> real)
    returns (result: Config)
    requires forall i :: 0 <= i < arg.Length ==> arg[i] != '\0'
    modifies arg
    ensures arg[..] == old(arg[..])
    ensures result == ApplyArg(old(arg[..]), cfg, atoi, atof)
  {
    var i := IndexOf(arg[..], '=');
    if i == arg.Length {
      // a warning goes to stderr
      return cfg;
    }
    ghost var original := arg[..];
    arg[i] := '\0';
    var key := CString(arg[..]);
    assert key == original[..i] by {
      assert arg[..] == original[..i] + arg[i..];
      IndexOfAfterPrefix(original[..i], arg[i..], '\0');
    }
    var value := arg[i + 1..];
    result := cfg;
    if key == "width" {
      result := cfg.(width := atoi(value));
    } else if key == "height" {
      result := cfg.(height := atoi(value));
    } else if key == "png" {
      result := cfg.(png := atoi(value) != 0);
    } else if key == "ll_x" {
      result := cfg.(llX := atof(value));
    } else if key == "ll_y" {
      result := cfg.(llY := atof(value));
    } else if key == "ur_x" {
      result := cfg.(urX := atof(value));
    } else if key == "ur_y" {
      result := cfg.(urY := atof(value));
    } else if key == "max_iter" {
      result := cfg.(maxIter := atoi(value));
    } else {
      // a warning goes to stderr
    }
    arg[i] := '=';
    assert arg[..] == original;
  }
}
