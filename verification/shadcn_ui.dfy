/** The UI component library add-on: `installShadcnUI`, which initialises the
    library, installs the button and toast components and wires the toaster
    into the layout, and `updateSignInComponentWithShadcnUI`, the hook that
    swaps the sign-in view for its UI-library variant. */
module ShadcnUiAddOn {
  import opened AddUtils
  import opened Collaborators

  /** The arguments of the init subprocess: `pnpm` runs it through `dlx`,
      the other managers run the package directly. */
  function InitArgs(pm: PackageManager): (args: seq<string>)
    ensures pm == Pnpm ==> args == ["dlx", "shadcn-ui@latest", "init"]
    ensures pm != Pnpm ==> args == ["shadcn-ui@latest", "init"]
  {
    var baseArgs := ["shadcn-ui@latest", "init"];
    if pm == Pnpm then ["dlx"] + baseArgs else baseArgs
  }

  /** The sign-in view, under the project root. */
  function SignInPath(hasSrc: bool): (path: string)
    ensures ("src/" <= path) == hasSrc
  {
    var filepath := "components/auth/SignIn.tsx";
    RootedPath(hasSrc, filepath);
    RootPath(hasSrc) + filepath
  }

  /** The sign-in view's location, written out. */
  lemma SignInTarget()
    ensures SignInPath(true) == "src/components/auth/SignIn.tsx"
    ensures SignInPath(false) == "components/auth/SignIn.tsx"
  {
  }

  /** `updateSignInComponentWithShadcnUI`: the sign-in view is overwritten
      with the fixed UI-library template. */
  function UpdateSignInComponentWithShadcnUI(hasSrc: bool): (a: Action)
    ensures a.ReplaceFile? && a.path == SignInPath(hasSrc) && a.content == ShadcnSignInComponent
    ensures ("src/" <= a.path) == hasSrc
  {
    ReplaceFile(SignInPath(hasSrc), ShadcnSignInComponent)
  }

  /** The fixed components the add-on installs. */
  const Components: seq<string> := ["button", "toast"]

  /** What the `components.json` check and the guarded init call log: a
      library that is already set up is only recorded; otherwise init runs,
      and the package is recorded after it only when it succeeds (a failure
      is reported and swallowed). Nothing else is logged. */
  predicate InitLogged(steps: seq<Action>, pm: PackageManager, componentsJsonExists: bool, initOk: bool)
  {
    && Select(steps, Record) == (if componentsJsonExists || initOk then [AddPackageToConfig(ShadcnUi)] else [])
    && Select(steps, Init) == (if componentsJsonExists then [] else [RunInit(pm, InitArgs(pm))])
    && (forall k :: k != Record && k != Init ==> Select(steps, k) == [])
    && Before(steps, Init, Record)
  }

  /** The `components.json` check and the guarded init call. */
  method InitializeShadcnUI(pm: PackageManager, componentsJsonExists: bool, initOk: bool)
    returns (steps: seq<Action>)
    ensures InitLogged(steps, pm, componentsJsonExists, initOk)
  {
    var installArgs := InitArgs(pm);
    if componentsJsonExists {
      steps := [AddPackageToConfig(ShadcnUi)];
    } else {
      steps := [RunInit(pm, installArgs)];
      if initOk {
        steps := steps + [AddPackageToConfig(ShadcnUi)];
        assert steps[1..] == [AddPackageToConfig(ShadcnUi)];
      }
    }
    forall k | k != Record && k != Init ensures Select(steps, k) == [] {
      SelectEmpty(steps, k);
    }
  }

  /** What follows the component install logs: once the awaited install
      returned without throwing, the toaster is wired into the layout, then
      the sign-in view is swapped when the authentication add-on is among
      `packages`; when it throws, nothing follows it. Nothing else is
      logged. */
  predicate WiringLogged(steps: seq<Action>, packages: seq<AvailablePackage>, hasSrc: bool, componentsOk: bool)
  {
    && Select(steps, LayoutPatch) == (if componentsOk then [PatchLayout(LayoutPath(hasSrc), ShadcnToast)] else [])
    && Select(steps, Replace) ==
         (if componentsOk && NextAuth in packages then [UpdateSignInComponentWithShadcnUI(hasSrc)] else [])
    && (forall k :: k != LayoutPatch && k != Replace ==> Select(steps, k) == [])
    && Before(steps, LayoutPatch, Replace)
    && LastWrite(steps, SignInPath(hasSrc)) ==
         (if componentsOk && NextAuth in packages then Some(ShadcnSignInComponent) else None)
  }

  /** The steps after the component install. */
  method WireComponents(packages: seq<AvailablePackage>, hasSrc: bool, componentsOk: bool)
    returns (steps: seq<Action>)
    ensures WiringLogged(steps, packages, hasSrc, componentsOk)
  {
    steps := [];
    if componentsOk {
      steps := [PatchLayout(LayoutPath(hasSrc), ShadcnToast)];
      if NextAuth in packages {
        steps := [steps[0], UpdateSignInComponentWithShadcnUI(hasSrc)];
        WiringWithSignIn(packages, hasSrc);
      } else {
        WiringWithoutSignIn(packages, hasSrc);
      }
    } else {
      WiringNone(packages, hasSrc);
    }
  }

  lemma WiringNone(packages: seq<AvailablePackage>, hasSrc: bool)
    ensures WiringLogged([], packages, hasSrc, false)
  {
  }

  lemma WiringWithoutSignIn(packages: seq<AvailablePackage>, hasSrc: bool)
    requires NextAuth !in packages
    ensures WiringLogged([PatchLayout(LayoutPath(hasSrc), ShadcnToast)], packages, hasSrc, true)
  {
    var steps := [PatchLayout(LayoutPath(hasSrc), ShadcnToast)];
    forall k | k != LayoutPatch && k != Replace ensures Select(steps, k) == [] {
      SelectOne(steps[0], k);
    }
    LastWriteSnoc([], steps[0], SignInPath(hasSrc));
    assert [] + steps == steps;
  }

  lemma WiringWithSignIn(packages: seq<AvailablePackage>, hasSrc: bool)
    requires NextAuth in packages
    ensures WiringLogged([PatchLayout(LayoutPath(hasSrc), ShadcnToast), UpdateSignInComponentWithShadcnUI(hasSrc)],
                         packages, hasSrc, true)
  {
    var patch, swap := PatchLayout(LayoutPath(hasSrc), ShadcnToast), UpdateSignInComponentWithShadcnUI(hasSrc);
    var steps := [patch, swap];
    assert steps[1..] == [swap];
    assert Select(steps, LayoutPatch) == [patch] by {
      SelectOne(swap, LayoutPatch);
    }
    assert Select(steps, Replace) == [swap] by {
      SelectOne(swap, Replace);
    }
    forall k | k != LayoutPatch && k != Replace ensures Select(steps, k) == [] {
      SelectEmpty(steps, k);
    }
    assert LastWrite(steps, SignInPath(hasSrc)) == Some(ShadcnSignInComponent);
  }

  /** `installShadcnUI`, as the log of the calls it makes. The world's answers
      are inputs: whether `components.json` is present, whether the awaited
      init subprocess resolves, and whether the awaited component install
      returns without throwing. The
      `lucide-react` install is launched first and not awaited. */
  method InstallShadcnUI(packages: seq<AvailablePackage>, config: Config,
                         componentsJsonExists: bool, initOk: bool, componentsOk: bool)
    returns (log: seq<Action>)
    ensures |log| > 0 && log[0] == InstallPackages("lucide-react", "", config.preferredPackageManager)
    ensures Select(log, Install) == [InstallPackages("lucide-react", "", config.preferredPackageManager)]
    ensures Select(log, Record) ==
              (if componentsJsonExists || initOk then [AddPackageToConfig(ShadcnUi)] else [])
    ensures Select(log, Init) ==
              (if componentsJsonExists then [] else [RunInit(config.preferredPackageManager, InitArgs(config.preferredPackageManager))])
    ensures Select(log, ComponentsInstall) == [InstallShadcnUIComponents(Components)]
    ensures Select(log, LayoutPatch) ==
              (if componentsOk then [PatchLayout(LayoutPath(config.hasSrc), ShadcnToast)] else [])
    ensures Select(log, Replace) ==
              (if componentsOk && NextAuth in packages then [UpdateSignInComponentWithShadcnUI(config.hasSrc)] else [])
    ensures Select(log, Create) == [] && Select(log, TrpcPatch) == [] && Select(log, EnvAppend) == []
    ensures Before(log, Init, Record) && Before(log, Record, ComponentsInstall) && Before(log, Init, ComponentsInstall)
    ensures Before(log, ComponentsInstall, LayoutPatch) && Before(log, LayoutPatch, Replace)
    ensures LastWrite(log, SignInPath(config.hasSrc)) ==
              (if componentsOk && NextAuth in packages then Some(ShadcnSignInComponent) else None)
    ensures exists setup, wiring ::
              && InitLogged(setup, config.preferredPackageManager, componentsJsonExists, initOk)
              && WiringLogged(wiring, packages, config.hasSrc, componentsOk)
              && log == InstallLog(config.preferredPackageManager, setup, wiring)
  {
    var pm := config.preferredPackageManager;
    var launch := InstallPackages("lucide-react", "", pm);
    log := [launch];
    var setup := InitializeShadcnUI(pm, componentsJsonExists, initOk);
    log := log + setup;
    assert log[0] == launch;
    log := log + [InstallShadcnUIComponents(Components)];
    assert log[0] == launch;
    var wiring := WireComponents(packages, config.hasSrc, componentsOk);
    log := log + wiring;
    assert log[0] == launch;
    FramedSpec(launch, setup, InstallShadcnUIComponents(Components), wiring, SignInPath(config.hasSrc));
    assert log == InstallLog(pm, setup, wiring);
  }

  /** The log `InstallShadcnUI` makes, cut into its four parts: its ensures
      give the setup and wiring meeting `InitLogged` and `WiringLogged`. */
  function InstallLog(pm: PackageManager, setup: seq<Action>, wiring: seq<Action>): seq<Action>
  {
    [InstallPackages("lucide-react", "", pm)] + setup + [InstallShadcnUIComponents(Components)] + wiring
  }

  /** The selection of kind `k` from a log laid out as the install log:
      a package install, the setup, a component install, the wiring. */
  lemma FramedSelect(launch: Action, setup: seq<Action>, install: Action, wiring: seq<Action>, k: Kind)
    requires launch.InstallPackages? && install.InstallShadcnUIComponents?
    ensures Select([launch] + setup + [install] + wiring, k) ==
              (if k == Install then [launch] else []) + Select(setup, k) +
              (if k == ComponentsInstall then [install] else []) + Select(wiring, k)
  {
    SelectSteps([launch], setup, [install], wiring, k);
    SelectOne(launch, k);
    SelectOne(install, k);
  }

  /** The selection of kind `k` from the install log. */
  lemma InstallLogSelect(pm: PackageManager, setup: seq<Action>, wiring: seq<Action>, k: Kind)
    ensures Select(InstallLog(pm, setup, wiring), k) ==
              (if k == Install then [InstallPackages("lucide-react", "", pm)] else []) + Select(setup, k) +
              (if k == ComponentsInstall then [InstallShadcnUIComponents(Components)] else []) + Select(wiring, k)
  {
    FramedSelect(InstallPackages("lucide-react", "", pm), setup, InstallShadcnUIComponents(Components), wiring, k);
  }

  /** Outside the two installs and the setup's kinds, a log laid out as the
      install log selects what its wiring selects. */
  lemma FramedWiringKinds(launch: Action, setup: seq<Action>, install: Action, wiring: seq<Action>, k: Kind)
    requires launch.InstallPackages? && install.InstallShadcnUIComponents?
    requires k != Install && k != ComponentsInstall && Select(setup, k) == []
    ensures Select([launch] + setup + [install] + wiring, k) == Select(wiring, k)
  {
    FramedSelect(launch, setup, install, wiring, k);
  }

  /** In a log laid out as the install log, the record and init calls are
      the setup's, and the two installs occur once each. */
  lemma FramedSetupKinds(launch: Action, setup: seq<Action>, install: Action, wiring: seq<Action>)
    requires launch.InstallPackages? && install.InstallShadcnUIComponents?
    requires forall k :: k != Record && k != Init ==> Select(setup, k) == []
    requires forall k :: k != LayoutPatch && k != Replace ==> Select(wiring, k) == []
    ensures var log := [launch] + setup + [install] + wiring;
            && Select(log, Record) == Select(setup, Record)
            && Select(log, Init) == Select(setup, Init)
            && Select(log, ComponentsInstall) == [install]
            && Select(log, Install) == [launch]
  {
    var log := [launch] + setup + [install] + wiring;
    assert Select(log, Record) == Select(setup, Record) by {
      FramedSelect(launch, setup, install, wiring, Record);
      assert Select(wiring, Record) == [];
    }
    assert Select(log, Init) == Select(setup, Init) by {
      FramedSelect(launch, setup, install, wiring, Init);
      assert Select(wiring, Init) == [];
    }
    assert Select(log, ComponentsInstall) == [install] by {
      FramedSelect(launch, setup, install, wiring, ComponentsInstall);
      assert Select(setup, ComponentsInstall) == [] && Select(wiring, ComponentsInstall) == [];
    }
    assert Select(log, Install) == [launch] by {
      FramedSelect(launch, setup, install, wiring, Install);
      assert Select(setup, Install) == [] && Select(wiring, Install) == [];
    }
  }

  /** The install log records the package and runs init as the setup step
      decided, installs the components exactly once, and installs no
      package but the icon library. */
  lemma InstallLogSetup(pm: PackageManager, componentsJsonExists: bool, initOk: bool, setup: seq<Action>, wiring: seq<Action>)
    requires InitLogged(setup, pm, componentsJsonExists, initOk)
    requires forall k :: k != LayoutPatch && k != Replace ==> Select(wiring, k) == []
    ensures var log := InstallLog(pm, setup, wiring);
            && Select(log, Record) == (if componentsJsonExists || initOk then [AddPackageToConfig(ShadcnUi)] else [])
            && Select(log, Init) == (if componentsJsonExists then [] else [RunInit(pm, InitArgs(pm))])
            && Select(log, ComponentsInstall) == [InstallShadcnUIComponents(Components)]
            && Select(log, Install) == [InstallPackages("lucide-react", "", pm)]
  {
    FramedSetupKinds(InstallPackages("lucide-react", "", pm), setup, InstallShadcnUIComponents(Components), wiring);
  }

  /** The install log wires the layout and the sign-in view as the wiring
      step decided, and creates no file, patches no trpc file and writes no
      `.env` entry. */
  lemma InstallLogWiring(pm: PackageManager, packages: seq<AvailablePackage>, hasSrc: bool, componentsOk: bool,
                         setup: seq<Action>, wiring: seq<Action>)
    requires forall k :: k != Record && k != Init ==> Select(setup, k) == []
    requires WiringLogged(wiring, packages, hasSrc, componentsOk)
    ensures var log := InstallLog(pm, setup, wiring);
            && Select(log, LayoutPatch) == (if componentsOk then [PatchLayout(LayoutPath(hasSrc), ShadcnToast)] else [])
            && Select(log, Replace) ==
                 (if componentsOk && NextAuth in packages then [UpdateSignInComponentWithShadcnUI(hasSrc)] else [])
            && Select(log, Create) == [] && Select(log, TrpcPatch) == [] && Select(log, EnvAppend) == []
  {
    FramedWiring(InstallPackages("lucide-react", "", pm), setup, InstallShadcnUIComponents(Components), wiring,
                 Select(wiring, LayoutPatch), Select(wiring, Replace));
  }

  /** A log laid out as the install log selects the layout patches and the
      replacements of its wiring, and no other kind the setup lacks. */
  lemma FramedWiring(launch: Action, setup: seq<Action>, install: Action, wiring: seq<Action>,
                     layout: seq<Action>, replace: seq<Action>)
    requires launch.InstallPackages? && install.InstallShadcnUIComponents?
    requires forall k :: k != Record && k != Init ==> Select(setup, k) == []
    requires Select(wiring, LayoutPatch) == layout && Select(wiring, Replace) == replace
    requires forall k :: k != LayoutPatch && k != Replace ==> Select(wiring, k) == []
    ensures var log := [launch] + setup + [install] + wiring;
            && Select(log, LayoutPatch) == layout && Select(log, Replace) == replace
            && Select(log, Create) == [] && Select(log, TrpcPatch) == [] && Select(log, EnvAppend) == []
  {
    FramedWiringKinds(launch, setup, install, wiring, LayoutPatch);
    FramedWiringKinds(launch, setup, install, wiring, Replace);
    FramedWiringKinds(launch, setup, install, wiring, Create);
    FramedWiringKinds(launch, setup, install, wiring, TrpcPatch);
    FramedWiringKinds(launch, setup, install, wiring, EnvAppend);
  }

  /** The orderings of a log laid out as the install log, given those of
      its setup and wiring parts. */
  lemma FramedOrder(launchStep: Action, setup: seq<Action>, installStep: Action, wiring: seq<Action>)
    requires launchStep.InstallPackages? && installStep.InstallShadcnUIComponents?
    requires forall k :: k != Record && k != Init ==> Select(setup, k) == []
    requires Before(setup, Init, Record)
    requires forall k :: k != LayoutPatch && k != Replace ==> Select(wiring, k) == []
    requires Before(wiring, LayoutPatch, Replace)
    ensures var log := [launchStep] + setup + [installStep] + wiring;
            Before(log, Init, Record) && Before(log, Record, ComponentsInstall) &&
            Before(log, Init, ComponentsInstall) &&
            Before(log, ComponentsInstall, LayoutPatch) && Before(log, LayoutPatch, Replace)
  {
    var log := [launchStep] + setup + [installStep] + wiring;
    assert Before(log, Init, Record) by {
      BeforeAbsent(wiring, Init, Record);
      FramedPair(launchStep, setup, installStep, wiring, Init, Record);
    }
    assert Before(log, Record, ComponentsInstall) by {
      BeforeAbsent(setup, Record, ComponentsInstall);
      BeforeAbsent(wiring, Record, ComponentsInstall);
      FramedPair(launchStep, setup, installStep, wiring, Record, ComponentsInstall);
    }
    assert Before(log, Init, ComponentsInstall) by {
      BeforeAbsent(setup, Init, ComponentsInstall);
      BeforeAbsent(wiring, Init, ComponentsInstall);
      FramedPair(launchStep, setup, installStep, wiring, Init, ComponentsInstall);
    }
    assert Before(log, ComponentsInstall, LayoutPatch) by {
      BeforeAbsent(setup, ComponentsInstall, LayoutPatch);
      BeforeAbsent(wiring, ComponentsInstall, LayoutPatch);
      FramedPair(launchStep, setup, installStep, wiring, ComponentsInstall, LayoutPatch);
    }
    assert Before(log, LayoutPatch, Replace) by {
      BeforeAbsent(setup, LayoutPatch, Replace);
      FramedPair(launchStep, setup, installStep, wiring, LayoutPatch, Replace);
    }
  }

  /** Two distinct kinds are ordered in a log laid out as the install log
      when each part orders them and no part holds a `k1` after an earlier
      part holds a `k2`. */
  lemma FramedPair(launchStep: Action, setup: seq<Action>, installStep: Action, wiring: seq<Action>, k1: Kind, k2: Kind)
    requires k1 != k2
    requires Before(setup, k1, k2) && Before(wiring, k1, k2)
    requires Select(setup, k1) == [] || !HasKind(launchStep, k2)
    requires !HasKind(installStep, k1) || (!HasKind(launchStep, k2) && Select(setup, k2) == [])
    requires Select(wiring, k1) == [] || (!HasKind(launchStep, k2) && Select(setup, k2) == [] && !HasKind(installStep, k2))
    ensures Before([launchStep] + setup + [installStep] + wiring, k1, k2)
  {
    SelectOne(launchStep, k2);
    SelectOne(installStep, k1);
    SelectOne(installStep, k2);
    BeforeSingle(launchStep, k1, k2);
    BeforeSingle(installStep, k1, k2);
    BeforeSteps([launchStep], setup, [installStep], wiring, k1, k2);
  }

  /** The orderings of the install log: init before the record, the record
      before the component install, init before the component install
      (whatever the outcome of init), the component install before the
      layout patch, the layout patch before the sign-in swap. */
  lemma InstallLogOrder(pm: PackageManager, setup: seq<Action>, wiring: seq<Action>)
    requires forall k :: k != Record && k != Init ==> Select(setup, k) == []
    requires Before(setup, Init, Record)
    requires forall k :: k != LayoutPatch && k != Replace ==> Select(wiring, k) == []
    requires Before(wiring, LayoutPatch, Replace)
    ensures var log := InstallLog(pm, setup, wiring);
            Before(log, Init, Record) && Before(log, Record, ComponentsInstall) &&
            Before(log, Init, ComponentsInstall) &&
            Before(log, ComponentsInstall, LayoutPatch) && Before(log, LayoutPatch, Replace)
  {
    FramedOrder(InstallPackages("lucide-react", "", pm), setup, InstallShadcnUIComponents(Components), wiring);
  }

  /** In a log laid out as the install log, a file ends with the template
      the wiring left in it: nothing before the wiring writes a file. */
  lemma FramedLastWrite(launch: Action, setup: seq<Action>, install: Action, wiring: seq<Action>, path: string)
    requires launch.InstallPackages? && install.InstallShadcnUIComponents?
    requires forall k :: k != Record && k != Init ==> Select(setup, k) == []
    ensures LastWrite([launch] + setup + [install] + wiring, path) == LastWrite(wiring, path)
  {
    assert LastWrite([launch] + setup, path) == None by {
      assert LastWrite([launch], path) == None by { LastWriteSnoc([], launch, path); }
      assert forall i :: 0 <= i < |setup| ==> !setup[i].CreateFile? && !setup[i].ReplaceFile? by {
        SelectEmpty(setup, Create);
        SelectEmpty(setup, Replace);
      }
      LastWriteSkip([launch], setup, path);
    }
    assert LastWrite([launch] + setup + [install], path) == None by {
      LastWriteSnoc([launch] + setup, install, path);
    }
    LastWriteAppend([launch] + setup + [install], wiring, path);
  }

  /** Everything the install log's layout gives: the calls of each kind and
      their order come from the setup and the wiring, around the two
      installs, and the wiring decides every file's template. */
  lemma FramedSpec(launch: Action, setup: seq<Action>, install: Action, wiring: seq<Action>, path: string)
    requires launch.InstallPackages? && install.InstallShadcnUIComponents?
    requires forall k :: k != Record && k != Init ==> Select(setup, k) == []
    requires Before(setup, Init, Record)
    requires forall k :: k != LayoutPatch && k != Replace ==> Select(wiring, k) == []
    requires Before(wiring, LayoutPatch, Replace)
    ensures var log := [launch] + setup + [install] + wiring;
            && Select(log, Record) == Select(setup, Record)
            && Select(log, Init) == Select(setup, Init)
            && Select(log, ComponentsInstall) == [install]
            && Select(log, Install) == [launch]
            && Select(log, LayoutPatch) == Select(wiring, LayoutPatch) && Select(log, Replace) == Select(wiring, Replace)
            && Select(log, Create) == [] && Select(log, TrpcPatch) == [] && Select(log, EnvAppend) == []
            && Before(log, Init, Record) && Before(log, Record, ComponentsInstall) && Before(log, Init, ComponentsInstall)
            && Before(log, ComponentsInstall, LayoutPatch) && Before(log, LayoutPatch, Replace)
            && LastWrite(log, path) == LastWrite(wiring, path)
  {
    FramedSetupKinds(launch, setup, install, wiring);
    FramedWiring(launch, setup, install, wiring, Select(wiring, LayoutPatch), Select(wiring, Replace));
    FramedOrder(launch, setup, install, wiring);
    FramedLastWrite(launch, setup, install, wiring, path);
  }

  /** Only the wiring step writes the sign-in view. */
  lemma InstallLogSignIn(pm: PackageManager, packages: seq<AvailablePackage>, hasSrc: bool, componentsOk: bool,
                         setup: seq<Action>, wiring: seq<Action>)
    requires forall k :: k != Record && k != Init ==> Select(setup, k) == []
    requires LastWrite(wiring, SignInPath(hasSrc)) ==
               (if componentsOk && NextAuth in packages then Some(ShadcnSignInComponent) else None)
    ensures LastWrite(InstallLog(pm, setup, wiring), SignInPath(hasSrc)) ==
              (if componentsOk && NextAuth in packages then Some(ShadcnSignInComponent) else None)
  {
    FramedLastWrite(InstallPackages("lucide-react", "", pm), setup, InstallShadcnUIComponents(Components), wiring,
                    SignInPath(hasSrc));
  }
}
