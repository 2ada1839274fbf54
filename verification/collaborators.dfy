/** The project descriptor and the calls the add-on commands make into the
    shared project utilities (file creation and replacement, package
    installation, config recording, the code generators). A command is
    modelled by the ordered log of the calls it makes, each call one
    `Action`. Of the calls' effect on disk only the template a created or
    replaced file holds is modelled, by `LastWrite`. */
module Collaborators {
  import opened AddUtils

  /** The tools a project can install its dependencies with. */
  datatype PackageManager = Npm | Yarn | Pnpm | Bun

  /** The persisted project descriptor, as `readConfigFile` returns it. The
      storage driver is only handed on to the schema generator, so it is
      kept as its name. */
  datatype Config = Config(
    hasSrc: bool,
    preferredPackageManager: PackageManager,
    driver: string,
    packages: seq<AvailablePackage>)

  /** The generated file contents, each named by the generator (or the fixed
      template) that produces it; their text is not modelled. */
  datatype Template =
    | ApiAuthNextAuthTs(providers: seq<string>)
    | LibAuthProviderTsx
    | LibAuthUtilsTs
    | AuthSchema(driver: string)
    | SignInComponent
    | ShadcnSignInComponent

  /** One `.env` line. */
  datatype EnvEntry = EnvEntry(key: string, value: string)

  /** One call into the project utilities or the generators. `PatchLayout`
      stands for `addContextProviderToLayout`: the file at `path` is replaced
      by `AddContextProviderToLayout` of its old content. */
  datatype Action =
    | CreateFile(path: string, content: Template)
    | ReplaceFile(path: string, content: Template)
    | PatchLayout(path: string, provider: Provider)
    | UpdateTrpcTs
    | EnableSessionInContext
    | EnableSessionInTRPCApi
    | AddToDotEnv(entries: seq<EnvEntry>)
    | InstallPackages(regular: string, dev: string, manager: PackageManager)
    | RunInit(manager: PackageManager, args: seq<string>)
    | InstallShadcnUIComponents(components: seq<string>)
    | AddPackageToConfig(package: AvailablePackage)

  /** The kinds of call, by which a log is filtered. */
  datatype Kind = Create | Replace | LayoutPatch | TrpcPatch | EnvAppend | Install | Init | ComponentsInstall | Record

  /** The action is a call of kind `k`. */
  predicate HasKind(a: Action, k: Kind)
  {
    match k
    case Create => a.CreateFile?
    case Replace => a.ReplaceFile?
    case LayoutPatch => a.PatchLayout?
    case TrpcPatch => a.UpdateTrpcTs? || a.EnableSessionInContext? || a.EnableSessionInTRPCApi?
    case EnvAppend => a.AddToDotEnv?
    case Install => a.InstallPackages?
    case Init => a.RunInit?
    case ComponentsInstall => a.InstallShadcnUIComponents?
    case Record => a.AddPackageToConfig?
  }

  /** The actions of `log` of kind `k`, in log order. */
  function Select(log: seq<Action>, k: Kind): (r: seq<Action>)
    ensures |r| <= |log|
  {
    if |log| == 0 then []
    else (if HasKind(log[0], k) then [log[0]] else []) + Select(log[1..], k)
  }

  /** Selecting from a concatenation selects from each part. */
  lemma {:induction false} SelectAppend(x: seq<Action>, y: seq<Action>, k: Kind)
    ensures Select(x + y, k) == Select(x, k) + Select(y, k)
    decreases |x|
  {
    if |x| == 0 {
      assert x + y == y;
    } else {
      var xy := x + y;
      assert xy[0] == x[0] && xy[1..] == x[1..] + y;
      var head := if HasKind(x[0], k) then [x[0]] else [];
      calc {
        Select(xy, k);
        head + Select(x[1..] + y, k);
        { SelectAppend(x[1..], y, k); }
        head + (Select(x[1..], k) + Select(y, k));
        (head + Select(x[1..], k)) + Select(y, k);
      }
    }
  }

  /** A log whose every action is of kind `k` is selected whole. */
  lemma {:induction false} SelectAll(log: seq<Action>, k: Kind)
    requires forall i :: 0 <= i < |log| ==> HasKind(log[i], k)
    ensures Select(log, k) == log
    decreases |log|
  {
    if |log| > 0 {
      assert forall i :: 0 <= i < |log| - 1 ==> log[1..][i] == log[i + 1];
      SelectAll(log[1..], k);
      assert log == [log[0]] + log[1..];
    }
  }

  /** A single action is selected exactly when it is of the kind asked for. */
  lemma SelectOne(a: Action, k: Kind)
    ensures Select([a], k) == if HasKind(a, k) then [a] else []
  {
    assert [a][1..] == [];
  }

  /** Selecting from a log made of four parts selects from each part. */
  lemma SelectSteps(w: seq<Action>, x: seq<Action>, y: seq<Action>, z: seq<Action>, k: Kind)
    ensures Select(w + x + y + z, k) == Select(w, k) + Select(x, k) + Select(y, k) + Select(z, k)
  {
    SelectAppend(w + x + y, z, k);
    SelectAppend(w + x, y, k);
    SelectAppend(w, x, k);
  }

  /** Selecting from a log made of six parts selects from each part. */
  lemma SelectSix(a: seq<Action>, b: seq<Action>, c: seq<Action>, d: seq<Action>, e: seq<Action>, f: seq<Action>, k: Kind)
    ensures Select(a + b + c + d + e + f, k) ==
              Select(a, k) + Select(b, k) + Select(c, k) + Select(d, k) + Select(e, k) + Select(f, k)
  {
    SelectAppend(a, b, k);
    SelectAppend(a + b, c, k);
    SelectAppend(a + b + c, d, k);
    SelectAppend(a + b + c + d, e, k);
    SelectAppend(a + b + c + d + e, f, k);
  }

  /** A log selects nothing of kind `k` exactly when it holds no action of
      that kind. */
  lemma {:induction false} SelectEmpty(log: seq<Action>, k: Kind)
    ensures Select(log, k) == [] <==> forall i :: 0 <= i < |log| ==> !HasKind(log[i], k)
    decreases |log|
  {
    if |log| > 0 {
      SelectEmpty(log[1..], k);
      assert forall i :: 1 <= i < |log| ==> log[i] == log[1..][i - 1];
    }
  }

  /** Every action has one kind. */
  lemma KindsExclusive(a: Action, k1: Kind, k2: Kind)
    requires HasKind(a, k1) && HasKind(a, k2)
    ensures k1 == k2
  {
  }

  /** A log whose every action is of kind `kind` selects itself for that
      kind and nothing for any other. */
  lemma SelectUniform(log: seq<Action>, kind: Kind, k: Kind)
    requires forall i :: 0 <= i < |log| ==> HasKind(log[i], kind)
    ensures Select(log, k) == if k == kind then log else []
  {
    if k == kind {
      SelectAll(log, k);
    } else {
      forall i | 0 <= i < |log| ensures !HasKind(log[i], k) {
        if HasKind(log[i], k) {
          KindsExclusive(log[i], kind, k);
        }
      }
      SelectEmpty(log, k);
    }
  }

  /** Every action of kind `k1` in `log` comes before every action of kind
      `k2`. */
  predicate Before(log: seq<Action>, k1: Kind, k2: Kind)
  {
    forall i, j :: 0 <= i < |log| && 0 <= j < |log| && HasKind(log[i], k1) && HasKind(log[j], k2) ==> i < j
  }

  /** A log without `k1` or without `k2` orders them vacuously. */
  lemma BeforeAbsent(log: seq<Action>, k1: Kind, k2: Kind)
    requires Select(log, k1) == [] || Select(log, k2) == []
    ensures Before(log, k1, k2)
  {
    SelectEmpty(log, k1);
    SelectEmpty(log, k2);
  }

  /** A single action orders any two distinct kinds. */
  lemma BeforeSingle(a: Action, k1: Kind, k2: Kind)
    requires k1 != k2
    ensures Before([a], k1, k2)
  {
  }

  /** Two ordered logs stay ordered when joined, unless the second holds a
      `k1` and the first a `k2`. */
  lemma BeforeAppend(x: seq<Action>, y: seq<Action>, k1: Kind, k2: Kind)
    requires Before(x, k1, k2) && Before(y, k1, k2)
    requires Select(y, k1) == [] || Select(x, k2) == []
    ensures Before(x + y, k1, k2)
  {
    SelectEmpty(x, k2);
    SelectEmpty(y, k1);
    var xy := x + y;
    forall i, j | 0 <= i < |xy| && 0 <= j < |xy| && HasKind(xy[i], k1) && HasKind(xy[j], k2)
      ensures i < j
    {
      if i < |x| && j < |x| {
        assert xy[i] == x[i] && xy[j] == x[j];
      } else if |x| <= i && |x| <= j {
        assert xy[i] == y[i - |x|] && xy[j] == y[j - |x|];
      }
    }
  }

  /** `Before` over a log made of four parts. */
  lemma BeforeSteps(w: seq<Action>, x: seq<Action>, y: seq<Action>, z: seq<Action>, k1: Kind, k2: Kind)
    requires Before(w, k1, k2) && Before(x, k1, k2) && Before(y, k1, k2) && Before(z, k1, k2)
    requires Select(x, k1) == [] || Select(w, k2) == []
    requires Select(y, k1) == [] || Select(w, k2) + Select(x, k2) == []
    requires Select(z, k1) == [] || Select(w, k2) + Select(x, k2) + Select(y, k2) == []
    ensures Before(w + x + y + z, k1, k2)
  {
    BeforeAppend(w, x, k1, k2);
    SelectAppend(w, x, k2);
    BeforeAppend(w + x, y, k1, k2);
    SelectAppend(w + x, y, k2);
    BeforeAppend(w + x + y, z, k1, k2);
  }

  /** The action creates, replaces or patches the file at its `path`. The
      `.env` append and the trpc patches also write files, but their paths
      are chosen by helpers outside this model, so they carry none. */
  predicate WritesFile(a: Action)
  {
    a.CreateFile? || a.ReplaceFile? || a.PatchLayout?
  }

  /** Every file `log` creates or replaces, and every layout it patches,
      lies under `src/` exactly when the project has a source directory. */
  predicate Rooted(log: seq<Action>, hasSrc: bool)
  {
    forall i :: 0 <= i < |log| && WritesFile(log[i]) ==> ("src/" <= log[i].path) == hasSrc
  }

  lemma RootedAppend(x: seq<Action>, y: seq<Action>, hasSrc: bool)
    requires Rooted(x, hasSrc) && Rooted(y, hasSrc)
    ensures Rooted(x + y, hasSrc)
  {
    var xy := x + y;
    forall i | 0 <= i < |xy| && WritesFile(xy[i])
      ensures ("src/" <= xy[i].path) == hasSrc
    {
      if i < |x| {
        assert xy[i] == x[i];
      } else {
        assert xy[i] == y[i - |x|];
      }
    }
  }

  /** The action writes a template to `path`. */
  predicate WritesTemplate(a: Action, path: string)
  {
    (a.CreateFile? || a.ReplaceFile?) && a.path == path
  }

  /** The template the file at `path` holds after the writes of `log` that
      carry a template, or `None` when `log` writes no template there;
      LastWriteIsLast shows the template is that of the last such write. */
  function LastWrite(log: seq<Action>, path: string): (t: Option<Template>)
    ensures t.Some? ==> exists i :: 0 <= i < |log| && WritesTemplate(log[i], path) && log[i].content == t.value
    ensures t.None? ==> forall i :: 0 <= i < |log| ==> !WritesTemplate(log[i], path)
  {
    if log == [] then None
    else
      var last := log[|log| - 1];
      if WritesTemplate(last, path) then Some(last.content)
      else
        var t := LastWrite(log[..|log| - 1], path);
        assert forall i :: 0 <= i < |log| - 1 ==> log[..|log| - 1][i] == log[i];
        t
  }

  /** Calls that create or replace no file leave every file's template as it
      was. */
  lemma LastWriteSkip(x: seq<Action>, y: seq<Action>, path: string)
    requires forall i :: 0 <= i < |y| ==> !y[i].CreateFile? && !y[i].ReplaceFile?
    ensures LastWrite(x + y, path) == LastWrite(x, path)
  {
    forall a | a in y ensures !a.CreateFile? && !a.ReplaceFile? {
      var i :| 0 <= i < |y| && y[i] == a;
    }
    LastWriteUntouched(x, y, path);
  }

  /** The template LastWrite reports comes from a write to `path` that no
      later write to `path` follows. */
  lemma {:induction false} LastWriteIsLast(log: seq<Action>, path: string)
    requires LastWrite(log, path).Some?
    ensures exists i :: 0 <= i < |log| && WritesTemplate(log[i], path) && log[i].content == LastWrite(log, path).value &&
                        forall j :: i < j < |log| ==> !WritesTemplate(log[j], path)
    decreases |log|
  {
    var n := |log| - 1;
    if !WritesTemplate(log[n], path) {
      var init := log[..n];
      LastWriteIsLast(init, path);
      var i :| 0 <= i < |init| && WritesTemplate(init[i], path) && init[i].content == LastWrite(init, path).value &&
               forall j :: i < j < |init| ==> !WritesTemplate(init[j], path);
      forall j | i < j < |log| ensures !WritesTemplate(log[j], path) {
        if j < n {
          assert log[j] == init[j];
        }
      }
      assert log[i] == init[i];
    }
  }

  /** Writes after `x` that do not touch `path` leave its template as `x`
      left it. */
  lemma {:induction false} LastWriteUntouched(x: seq<Action>, y: seq<Action>, path: string)
    requires forall a :: a in y && (a.CreateFile? || a.ReplaceFile?) ==> a.path != path
    ensures LastWrite(x + y, path) == LastWrite(x, path)
    decreases |y|
  {
    if y == [] {
      assert x + y == x;
    } else {
      var z := y[..|y| - 1];
      assert (x + y)[..|x + y| - 1] == x + z;
      assert forall a :: a in z ==> a in y;
      LastWriteUntouched(x, z, path);
    }
  }

  /** The template a path holds after one more action. */
  lemma LastWriteSnoc(x: seq<Action>, a: Action, path: string)
    ensures LastWrite(x + [a], path) ==
              if (a.CreateFile? || a.ReplaceFile?) && a.path == path then Some(a.content) else LastWrite(x, path)
  {
    assert (x + [a])[..|x + [a]| - 1] == x;
  }

  /** The template a path holds after `x + y`: the last write of `y` if it
      writes one there, otherwise the last write of `x`. */
  lemma {:induction false} LastWriteAppend(x: seq<Action>, y: seq<Action>, path: string)
    ensures LastWrite(x + y, path) == if LastWrite(y, path).Some? then LastWrite(y, path) else LastWrite(x, path)
    decreases |y|
  {
    if |y| == 0 {
      assert x + y == x;
    } else {
      var z := y[..|y| - 1];
      assert (x + y)[..|x + y| - 1] == x + z;
      assert (x + y)[|x + y| - 1] == y[|y| - 1];
      LastWriteAppend(x, z, path);
    }
  }

  datatype Option<T> = None | Some(value: T)
}
