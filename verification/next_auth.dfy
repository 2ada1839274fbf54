/** The authentication add-on: `addNextAuth`, which writes the route handler,
    the session provider, the auth helpers, the auth schema and the sign-in
    view, patches the trpc files when trpc is installed, appends the
    provider credentials to `.env`, installs the auth packages, records the
    add-on and wraps the layout in the session provider. */
module NextAuthAddOn {
  import opened JsStrings
  import opened AddUtils
  import opened Collaborators
  import opened ShadcnUiAddOn

  // ---------------------------------------------------------------- .env

  /** The session-signing secret placeholder, always the first entry. */
  const NextAuthSecret: EnvEntry := EnvEntry("NEXTAUTH_SECRET", "your_super_secret_key_here")

  /** The client id placeholder of provider `p`. */
  function ClientIdEntry(p: string): EnvEntry
  {
    EnvEntry(Upper(p) + "_CLIENT_ID", "your_" + p + "_id_here")
  }

  /** The client secret placeholder of provider `p`. */
  function ClientSecretEntry(p: string): EnvEntry
  {
    EnvEntry(Upper(p) + "_CLIENT_SECRET", "your_" + p + "_secret_here")
  }

  /** The two placeholders of every chosen provider, provider by provider
      (the `flatMap` over the providers). */
  function ProviderEnvEntries(providers: seq<string>): (entries: seq<EnvEntry>)
    ensures |entries| == 2 * |providers|
    ensures forall i :: 0 <= i < |providers| ==>
              entries[2 * i] == ClientIdEntry(providers[i]) && entries[2 * i + 1] == ClientSecretEntry(providers[i])
  {
    if providers == [] then []
    else [ClientIdEntry(providers[0]), ClientSecretEntry(providers[0])] + ProviderEnvEntries(providers[1..])
  }

  /** The entries appended to `.env`: the secret, then the placeholders of
      each provider in the order the providers were chosen. */
  function EnvEntries(providers: seq<string>): (entries: seq<EnvEntry>)
    ensures |entries| == 1 + 2 * |providers|
    ensures entries[0] == NextAuthSecret
    ensures forall i :: 0 <= i < |providers| ==>
              entries[1 + 2 * i] == ClientIdEntry(providers[i]) && entries[2 + 2 * i] == ClientSecretEntry(providers[i])
  {
    [NextAuthSecret] + ProviderEnvEntries(providers)
  }

  /** Two names with a common suffix are equal exactly when their stems are. */
  lemma SuffixCancel(a: string, b: string, suffix: string)
    ensures a + suffix == b + suffix <==> a == b
  {
    if a + suffix == b + suffix {
      assert a == (a + suffix)[..|a|];
      assert b == (b + suffix)[..|b|];
    }
  }

  /** No provider placeholder is keyed like the secret. */
  lemma ClientKeysNotSecret(p: string)
    ensures ClientIdEntry(p).key != NextAuthSecret.key
    ensures ClientSecretEntry(p).key != NextAuthSecret.key
  {
    var id, secret := ClientIdEntry(p).key, ClientSecretEntry(p).key;
    if |id| == |NextAuthSecret.key| {
      assert id[5] == '_' != NextAuthSecret.key[5];
    }
    if |secret| == |NextAuthSecret.key| {
      assert secret[1] == '_' != NextAuthSecret.key[1];
    }
  }

  /** A client id key is never a client secret key: they end differently. */
  lemma ClientKeysApart(p: string, q: string)
    ensures ClientIdEntry(p).key != ClientSecretEntry(q).key
  {
    var id, secret := ClientIdEntry(p).key, ClientSecretEntry(q).key;
    assert id[|id| - 1] == 'D' && secret[|secret| - 1] == 'T';
  }

  /** The suffix that follows the upper-cased provider name in the key of
      `.env` entry `i > 0`: odd entries hold client ids, even ones secrets. */
  function KeySuffix(i: int): string
  {
    if i % 2 == 1 then "_CLIENT_ID" else "_CLIENT_SECRET"
  }

  /** Entry `i > 0` of the `.env` list belongs to provider `(i - 1) / 2`. */
  lemma EntryKey(providers: seq<string>, i: int)
    requires 1 <= i < |EnvEntries(providers)|
    ensures 0 <= (i - 1) / 2 < |providers|
    ensures EnvEntries(providers)[i].key == Upper(providers[(i - 1) / 2]) + KeySuffix(i)
  {
    var n := (i - 1) / 2;
    if i % 2 == 1 {
      assert i == 1 + 2 * n;
    } else {
      assert i == 2 + 2 * n;
    }
  }

  /** Two entries of the same parity and the same provider are one entry. */
  lemma SameSlot(i: int, j: int)
    requires 1 <= i && 1 <= j && (i - 1) / 2 == (j - 1) / 2 && i % 2 == j % 2
    ensures i == j
  {
  }

  /** With the upper-cased providers pairwise distinct, two different
      entries have different keys. */
  lemma EntryKeysApart(providers: seq<string>, i: int, j: int)
    requires forall i, j :: 0 <= i < j < |providers| ==> Upper(providers[i]) != Upper(providers[j])
    requires 0 <= i < j < |EnvEntries(providers)|
    ensures EnvEntries(providers)[i].key != EnvEntries(providers)[j].key
  {
    EntryKey(providers, j);
    var q := providers[(j - 1) / 2];
    if i == 0 {
      ClientKeysNotSecret(q);
    } else {
      EntryKey(providers, i);
      var p := providers[(i - 1) / 2];
      if i % 2 != j % 2 {
        if i % 2 == 1 {
          ClientKeysApart(p, q);
        } else {
          ClientKeysApart(q, p);
        }
      } else {
        SuffixCancel(Upper(p), Upper(q), KeySuffix(i));
        if (i - 1) / 2 == (j - 1) / 2 {
          SameSlot(i, j);
        }
      }
    }
  }

  /** The `.env` keys are pairwise distinct exactly when the chosen
      providers are pairwise distinct once upper-cased. */
  lemma EnvKeysDistinct(providers: seq<string>)
    ensures var entries := EnvEntries(providers);
            (forall i, j :: 0 <= i < j < |entries| ==> entries[i].key != entries[j].key) <==>
            (forall i, j :: 0 <= i < j < |providers| ==> Upper(providers[i]) != Upper(providers[j]))
  {
    var entries := EnvEntries(providers);
    if forall i, j :: 0 <= i < j < |providers| ==> Upper(providers[i]) != Upper(providers[j]) {
      forall i, j | 0 <= i < j < |entries| ensures entries[i].key != entries[j].key {
        EntryKeysApart(providers, i, j);
      }
    } else {
      var i, j :| 0 <= i < j < |providers| && Upper(providers[i]) == Upper(providers[j]);
      assert entries[1 + 2 * i].key == entries[1 + 2 * j].key;
    }
  }

  /** The string holds no lower-case ASCII letter. */
  predicate NoLower(s: string)
  {
    forall c :: 0 <= c < |s| ==> !('a' <= s[c] <= 'z')
  }

  lemma NoLowerAppend(a: string, b: string)
    requires NoLower(a) && NoLower(b)
    ensures NoLower(a + b)
  {
    forall c | 0 <= c < |a + b| ensures !('a' <= (a + b)[c] <= 'z') {
      if c >= |a| {
        assert (a + b)[c] == b[c - |a|];
      }
    }
  }

  /** The fixed key parts are upper-case. */
  lemma FixedKeysNoLower()
    ensures NoLower(NextAuthSecret.key) && NoLower(KeySuffix(1)) && NoLower(KeySuffix(2))
  {
  }

  /** Every `.env` key is free of lower-case letters. */
  lemma EnvKeysUpper(providers: seq<string>)
    ensures forall e :: e in EnvEntries(providers) ==> NoLower(e.key)
  {
    var entries := EnvEntries(providers);
    FixedKeysNoLower();
    forall e | e in entries ensures NoLower(e.key) {
      var i :| 0 <= i < |entries| && entries[i] == e;
      if i > 0 {
        EntryKey(providers, i);
        assert KeySuffix(i) == KeySuffix(1) || KeySuffix(i) == KeySuffix(2);
        NoLowerAppend(Upper(providers[(i - 1) / 2]), KeySuffix(i));
      }
    }
  }

  // ------------------------------------------------------------ the steps

  /** The packages the add-on installs. */
  const AuthPackages := "@auth/core @auth/drizzle-adapter next-auth"

  /** The four files every run creates, in creation order: the route
      handler, the session provider, the auth helpers and the auth schema. */
  function AuthFiles(providers: seq<string>, hasSrc: bool, driver: string): (files: seq<Action>)
    ensures |files| == 4
    ensures forall i :: 0 <= i < 4 ==> files[i].CreateFile? && ("src/" <= files[i].path) == hasSrc
  {
    var rootPath := RootPath(hasSrc);
    RootedPath(hasSrc, "app/api/auth/[...nextauth]/route.ts");
    RootedPath(hasSrc, "lib/auth/Provider.tsx");
    RootedPath(hasSrc, "lib/auth/utils.ts");
    RootedPath(hasSrc, "lib/db/schema/auth.ts");
    [CreateFile(rootPath + "app/api/auth/[...nextauth]/route.ts", ApiAuthNextAuthTs(providers)),
     CreateFile(rootPath + "lib/auth/Provider.tsx", LibAuthProviderTsx),
     CreateFile(rootPath + "lib/auth/utils.ts", LibAuthUtilsTs),
     CreateFile(rootPath + "lib/db/schema/auth.ts", AuthSchema(driver))]
  }

  /** The sign-in view: swapped for the UI-library variant when that add-on
      is installed, created from the plain template otherwise. */
  function SignInStep(packages: seq<AvailablePackage>, hasSrc: bool): (a: Action)
    ensures a.ReplaceFile? <==> ShadcnUi in packages
    ensures a.CreateFile? <==> ShadcnUi !in packages
    ensures a.path == SignInPath(hasSrc) && ("src/" <= a.path) == hasSrc
    ensures a.content == if ShadcnUi in packages then ShadcnSignInComponent else SignInComponent
  {
    RootedPath(hasSrc, "components/auth/SignIn.tsx");
    if ShadcnUi in packages then UpdateSignInComponentWithShadcnUI(hasSrc)
    else CreateFile(SignInPath(hasSrc), SignInComponent)
  }

  /** The trpc patches, run when trpc is installed. */
  function TrpcSteps(packages: seq<AvailablePackage>): seq<Action>
  {
    if Trpc in packages then [UpdateTrpcTs, EnableSessionInContext, EnableSessionInTRPCApi] else []
  }

  /** What runs once the awaited package install returned without throwing:
      the add-on is recorded, then the layout is wrapped in the session
      provider. */
  function FinishSteps(hasSrc: bool, installOk: bool): seq<Action>
  {
    if installOk then [AddPackageToConfig(NextAuth), PatchLayout(LayoutPath(hasSrc), NextAuthProvider)] else []
  }

  /** The log of `addNextAuth`, cut into its parts. */
  function NextAuthLog(providers: seq<string>, config: Config, installOk: bool): seq<Action>
  {
    AuthFiles(providers, config.hasSrc, config.driver) + [SignInStep(config.packages, config.hasSrc)] +
    TrpcSteps(config.packages) + [AddToDotEnv(EnvEntries(providers))] +
    [InstallPackages(AuthPackages, "", config.preferredPackageManager)] + FinishSteps(config.hasSrc, installOk)
  }

  /** `addNextAuth`, as the log of the calls it makes. The chosen providers
      are an input, and so is the outcome of the awaited package install:
      `installOk` says the call returned without throwing; when it throws,
      nothing after it runs. */
  method AddNextAuth(providers: seq<string>, config: Config, installOk: bool) returns (log: seq<Action>)
    ensures log == NextAuthLog(providers, config, installOk)
  {
    var hasSrc, packages := config.hasSrc, config.packages;
    var rootPath := RootPath(hasSrc);
    log := [CreateFile(rootPath + "app/api/auth/[...nextauth]/route.ts", ApiAuthNextAuthTs(providers))];
    log := log + [CreateFile(rootPath + "lib/auth/Provider.tsx", LibAuthProviderTsx)];
    log := log + [CreateFile(rootPath + "lib/auth/utils.ts", LibAuthUtilsTs)];
    log := log + [CreateFile(rootPath + "lib/db/schema/auth.ts", AuthSchema(config.driver))];
    assert log == AuthFiles(providers, hasSrc, config.driver);
    if ShadcnUi in packages {
      log := log + [UpdateSignInComponentWithShadcnUI(hasSrc)];
    } else {
      log := log + [CreateFile(rootPath + "components/auth/SignIn.tsx", SignInComponent)];
    }
    assert log == AuthFiles(providers, hasSrc, config.driver) + [SignInStep(packages, hasSrc)];
    if Trpc in packages {
      log := log + [UpdateTrpcTs, EnableSessionInContext, EnableSessionInTRPCApi];
    }
    assert log == AuthFiles(providers, hasSrc, config.driver) + [SignInStep(packages, hasSrc)] + TrpcSteps(packages);
    log := log + [AddToDotEnv(EnvEntries(providers))];
    log := log + [InstallPackages(AuthPackages, "", config.preferredPackageManager)];
    if installOk {
      log := log + [AddPackageToConfig(NextAuth)];
      log := log + [PatchLayout(LayoutPath(hasSrc), NextAuthProvider)];
    }
  }

  // ------------------------------------------------- what the log selects

  lemma FinishStepsSelect(hasSrc: bool, installOk: bool, k: Kind)
    ensures Select(FinishSteps(hasSrc, installOk), k) ==
              if installOk && k == Record then [AddPackageToConfig(NextAuth)]
              else if installOk && k == LayoutPatch then [PatchLayout(LayoutPath(hasSrc), NextAuthProvider)]
              else []
  {
    var steps := FinishSteps(hasSrc, installOk);
    if installOk {
      assert steps[1..] == [PatchLayout(LayoutPath(hasSrc), NextAuthProvider)];
      SelectOne(steps[1], k);
    }
  }

  /** The selection of kind `k` from a log laid out as `addNextAuth` lays
      out its calls. */
  lemma StepsSelect(files: seq<Action>, signIn: Action, trpc: seq<Action>, env: Action, install: Action,
                    finish: seq<Action>, k: Kind)
    requires forall i :: 0 <= i < |files| ==> HasKind(files[i], Create)
    requires forall i :: 0 <= i < |trpc| ==> HasKind(trpc[i], TrpcPatch)
    requires env.AddToDotEnv? && install.InstallPackages?
    ensures Select(files + [signIn] + trpc + [env] + [install] + finish, k) ==
              (if k == Create then files else []) + (if HasKind(signIn, k) then [signIn] else []) +
              (if k == TrpcPatch then trpc else []) + (if k == EnvAppend then [env] else []) +
              (if k == Install then [install] else []) + Select(finish, k)
  {
    SelectSix(files, [signIn], trpc, [env], [install], finish, k);
    SelectUniform(files, Create, k);
    SelectUniform(trpc, TrpcPatch, k);
    SelectOne(signIn, k);
    SelectOne(env, k);
    SelectOne(install, k);
  }

  /** The selection of kind `k` from the log, with the fixed parts
      evaluated. */
  lemma NextAuthLogSelect(providers: seq<string>, config: Config, installOk: bool, k: Kind)
    ensures Select(NextAuthLog(providers, config, installOk), k) ==
              (if k == Create then AuthFiles(providers, config.hasSrc, config.driver) else []) +
              (if HasKind(SignInStep(config.packages, config.hasSrc), k) then [SignInStep(config.packages, config.hasSrc)] else []) +
              (if k == TrpcPatch then TrpcSteps(config.packages) else []) +
              (if k == EnvAppend then [AddToDotEnv(EnvEntries(providers))] else []) +
              (if k == Install then [InstallPackages(AuthPackages, "", config.preferredPackageManager)] else []) +
              Select(FinishSteps(config.hasSrc, installOk), k)
  {
    StepsSelect(AuthFiles(providers, config.hasSrc, config.driver), SignInStep(config.packages, config.hasSrc),
                TrpcSteps(config.packages), AddToDotEnv(EnvEntries(providers)),
                InstallPackages(AuthPackages, "", config.preferredPackageManager), FinishSteps(config.hasSrc, installOk), k);
  }

  /** The files the log creates: the four auth files in order, then the
      sign-in view from the plain template unless the UI library is
      installed. */
  lemma NextAuthLogCreates(providers: seq<string>, config: Config, installOk: bool)
    ensures Select(NextAuthLog(providers, config, installOk), Create) ==
              AuthFiles(providers, config.hasSrc, config.driver) +
              (if ShadcnUi in config.packages then [] else [CreateFile(SignInPath(config.hasSrc), SignInComponent)])
  {
    var signIn := SignInStep(config.packages, config.hasSrc);
    assert Select(NextAuthLog(providers, config, installOk), Create) ==
             AuthFiles(providers, config.hasSrc, config.driver) + (if HasKind(signIn, Create) then [signIn] else []) by {
      NextAuthLogSelect(providers, config, installOk, Create);
      FinishStepsSelect(config.hasSrc, installOk, Create);
    }
  }

  /** The files the log replaces: only the sign-in view, swapped for the UI
      library's variant exactly when that library is installed; with
      NextAuthLogCreates, the sign-in view is written exactly once. */
  lemma NextAuthLogReplaces(providers: seq<string>, config: Config, installOk: bool)
    ensures Select(NextAuthLog(providers, config, installOk), Replace) ==
              if ShadcnUi in config.packages then [UpdateSignInComponentWithShadcnUI(config.hasSrc)] else []
  {
    var signIn := SignInStep(config.packages, config.hasSrc);
    assert Select(NextAuthLog(providers, config, installOk), Replace) ==
             (if HasKind(signIn, Replace) then [signIn] else []) by {
      NextAuthLogSelect(providers, config, installOk, Replace);
      FinishStepsSelect(config.hasSrc, installOk, Replace);
    }
  }

  /** The trpc patches run, in order, exactly when trpc is installed. */
  lemma NextAuthLogTrpc(providers: seq<string>, config: Config, installOk: bool)
    ensures Select(NextAuthLog(providers, config, installOk), TrpcPatch) ==
              if Trpc in config.packages then [UpdateTrpcTs, EnableSessionInContext, EnableSessionInTRPCApi] else []
  {
    NextAuthLogSelect(providers, config, installOk, TrpcPatch);
    FinishStepsSelect(config.hasSrc, installOk, TrpcPatch);
  }

  /** One `.env` append with the secret and the provider placeholders, and
      one install of the auth packages with the preferred package manager. */
  lemma NextAuthLogEnvAndInstall(providers: seq<string>, config: Config, installOk: bool)
    ensures Select(NextAuthLog(providers, config, installOk), EnvAppend) == [AddToDotEnv(EnvEntries(providers))]
    ensures Select(NextAuthLog(providers, config, installOk), Install) ==
              [InstallPackages(AuthPackages, "", config.preferredPackageManager)]
  {
    var log := NextAuthLog(providers, config, installOk);
    assert Select(log, EnvAppend) == [AddToDotEnv(EnvEntries(providers))] by {
      NextAuthLogSelect(providers, config, installOk, EnvAppend);
      FinishStepsSelect(config.hasSrc, installOk, EnvAppend);
    }
    assert Select(log, Install) == [InstallPackages(AuthPackages, "", config.preferredPackageManager)] by {
      NextAuthLogSelect(providers, config, installOk, Install);
      FinishStepsSelect(config.hasSrc, installOk, Install);
    }
  }


  /** The add-on is recorded, and the layout wrapped in the session
      provider, exactly when the awaited package install returns without
      throwing. */
  lemma NextAuthLogFinish(providers: seq<string>, config: Config, installOk: bool)
    ensures Select(NextAuthLog(providers, config, installOk), Record) ==
              if installOk then [AddPackageToConfig(NextAuth)] else []
    ensures Select(NextAuthLog(providers, config, installOk), LayoutPatch) ==
              if installOk then [PatchLayout(LayoutPath(config.hasSrc), NextAuthProvider)] else []
  {
    var log := NextAuthLog(providers, config, installOk);
    assert Select(log, Record) == if installOk then [AddPackageToConfig(NextAuth)] else [] by {
      NextAuthLogSelect(providers, config, installOk, Record);
      FinishStepsSelect(config.hasSrc, installOk, Record);
    }
    assert Select(log, LayoutPatch) == if installOk then [PatchLayout(LayoutPath(config.hasSrc), NextAuthProvider)] else [] by {
      NextAuthLogSelect(providers, config, installOk, LayoutPatch);
      FinishStepsSelect(config.hasSrc, installOk, LayoutPatch);
    }
  }

  /** The add-on makes no UI-library call. */
  lemma NextAuthLogNoUiCalls(providers: seq<string>, config: Config, installOk: bool)
    ensures Select(NextAuthLog(providers, config, installOk), Init) == []
    ensures Select(NextAuthLog(providers, config, installOk), ComponentsInstall) == []
  {
    var log := NextAuthLog(providers, config, installOk);
    assert Select(log, Init) == [] by {
      NextAuthLogSelect(providers, config, installOk, Init);
      FinishStepsSelect(config.hasSrc, installOk, Init);
    }
    assert Select(log, ComponentsInstall) == [] by {
      NextAuthLogSelect(providers, config, installOk, ComponentsInstall);
      FinishStepsSelect(config.hasSrc, installOk, ComponentsInstall);
    }
  }

  // ------------------------------------------------------------ the order

  /** The stage of the command at which a call is made: the file creations
      and replacements, the trpc patches, the `.env` append, the package
      install, the record of the add-on, the layout patch. The UI-library calls are never made
      and come last. */
  function Stage(a: Action): nat
  {
    match a
    case CreateFile(_, _) => 0
    case ReplaceFile(_, _) => 0
    case UpdateTrpcTs => 1
    case EnableSessionInContext => 1
    case EnableSessionInTRPCApi => 1
    case AddToDotEnv(_) => 2
    case InstallPackages(_, _, _) => 3
    case AddPackageToConfig(_) => 4
    case PatchLayout(_, _) => 5
    case RunInit(_, _) => 6
    case InstallShadcnUIComponents(_) => 6
  }

  /** The calls of `log` are made stage by stage. */
  predicate Staged(log: seq<Action>)
  {
    forall i, j :: 0 <= i < j < |log| ==> Stage(log[i]) <= Stage(log[j])
  }

  /** Every call of `log` is made at a stage between `lo` and `hi`. */
  predicate StagesIn(log: seq<Action>, lo: nat, hi: nat)
  {
    forall i :: 0 <= i < |log| ==> lo <= Stage(log[i]) <= hi
  }

  lemma StagedAppend(x: seq<Action>, y: seq<Action>, lo: nat, mid: nat, hi: nat)
    requires lo <= mid <= hi
    requires Staged(x) && StagesIn(x, lo, mid) && Staged(y) && StagesIn(y, mid, hi)
    ensures Staged(x + y) && StagesIn(x + y, lo, hi)
  {
    var xy := x + y;
    forall i, j | 0 <= i < j < |xy| ensures Stage(xy[i]) <= Stage(xy[j]) {
      if j < |x| {
        assert xy[i] == x[i] && xy[j] == x[j];
      } else if i < |x| {
        assert xy[i] == x[i] && xy[j] == y[j - |x|];
      } else {
        assert xy[i] == y[i - |x|] && xy[j] == y[j - |x|];
      }
    }
    forall i | 0 <= i < |xy| ensures lo <= Stage(xy[i]) <= hi {
      if i < |x| {
        assert xy[i] == x[i];
      } else {
        assert xy[i] == y[i - |x|];
      }
    }
  }

  /** The stage at which calls of kind `k` are made. */
  function KindStage(k: Kind): nat
  {
    match k
    case Create => 0
    case Replace => 0
    case TrpcPatch => 1
    case EnvAppend => 2
    case Install => 3
    case Record => 4
    case LayoutPatch => 5
    case Init => 6
    case ComponentsInstall => 6
  }

  lemma StageOfKind(a: Action, k: Kind)
    requires HasKind(a, k)
    ensures Stage(a) == KindStage(k)
  {
  }

  /** In a staged log, the calls of a kind made at an earlier stage precede
      the calls of a kind made at a later one. */
  lemma StagedBefore(log: seq<Action>, k1: Kind, k2: Kind)
    requires Staged(log) && KindStage(k1) < KindStage(k2)
    ensures Before(log, k1, k2)
  {
    forall i, j | 0 <= i < |log| && 0 <= j < |log| && HasKind(log[i], k1) && HasKind(log[j], k2) ensures i < j {
      StageOfKind(log[i], k1);
      StageOfKind(log[j], k2);
    }
  }

  /** A log laid out as `addNextAuth` lays out its calls is staged. */
  lemma StepsStaged(files: seq<Action>, signIn: Action, trpc: seq<Action>, env: Action, install: Action,
                    finish: seq<Action>)
    requires forall i :: 0 <= i < |files| ==> HasKind(files[i], Create)
    requires signIn.CreateFile? || signIn.ReplaceFile?
    requires forall i :: 0 <= i < |trpc| ==> HasKind(trpc[i], TrpcPatch)
    requires env.AddToDotEnv? && install.InstallPackages?
    requires finish == [] || (|finish| == 2 && finish[0].AddPackageToConfig? && finish[1].PatchLayout?)
    ensures Staged(files + [signIn] + trpc + [env] + [install] + finish)
  {
    assert StagesIn(files, 0, 0) by {
      forall i | 0 <= i < |files| ensures Stage(files[i]) == 0 { StageOfKind(files[i], Create); }
    }
    assert StagesIn(trpc, 1, 1) by {
      forall i | 0 <= i < |trpc| ensures Stage(trpc[i]) == 1 { StageOfKind(trpc[i], TrpcPatch); }
    }
    StagedAppend(files, [signIn], 0, 0, 0);
    StagedAppend(files + [signIn], trpc, 0, 0, 1);
    StagedAppend(files + [signIn] + trpc, [env], 0, 1, 2);
    StagedAppend(files + [signIn] + trpc + [env], [install], 0, 2, 3);
    StagedAppend(files + [signIn] + trpc + [env] + [install], finish, 0, 3, 5);
  }

  /** In a log laid out as `addNextAuth` lays out its calls, the file at
      the sign-in step's path ends with that step's template: no later call
      creates or replaces a file. */
  lemma StepsSignIn(files: seq<Action>, signIn: Action, trpc: seq<Action>, env: Action, install: Action,
                    finish: seq<Action>, path: string)
    requires (signIn.CreateFile? || signIn.ReplaceFile?) && signIn.path == path
    requires forall i :: 0 <= i < |trpc| ==> HasKind(trpc[i], TrpcPatch)
    requires env.AddToDotEnv? && install.InstallPackages?
    requires forall i :: 0 <= i < |finish| ==> finish[i].AddPackageToConfig? || finish[i].PatchLayout?
    ensures LastWrite(files + [signIn] + trpc + [env] + [install] + finish, path) == Some(signIn.content)
  {
    var tail := trpc + [env] + [install] + finish;
    forall i | 0 <= i < |tail| ensures !tail[i].CreateFile? && !tail[i].ReplaceFile? {
      if i < |trpc| {
        assert tail[i] == trpc[i];
      } else if i >= |trpc| + 2 {
        assert tail[i] == finish[i - |trpc| - 2];
      }
    }
    assert files + [signIn] + trpc + [env] + [install] + finish == (files + [signIn]) + tail;
    LastWriteSnoc(files, signIn, path);
    LastWriteSkip(files + [signIn], tail, path);
  }

  /** The order of the calls of a log laid out as `addNextAuth` lays out
      its calls. */
  lemma StepsOrder(files: seq<Action>, signIn: Action, trpc: seq<Action>, env: Action, install: Action,
                   finish: seq<Action>)
    requires forall i :: 0 <= i < |files| ==> HasKind(files[i], Create)
    requires signIn.CreateFile? || signIn.ReplaceFile?
    requires forall i :: 0 <= i < |trpc| ==> HasKind(trpc[i], TrpcPatch)
    requires env.AddToDotEnv? && install.InstallPackages?
    requires finish == [] || (|finish| == 2 && finish[0].AddPackageToConfig? && finish[1].PatchLayout?)
    ensures var log := files + [signIn] + trpc + [env] + [install] + finish;
            && Before(log, Create, TrpcPatch) && Before(log, Replace, TrpcPatch)
            && Before(log, Create, EnvAppend) && Before(log, Replace, EnvAppend) && Before(log, TrpcPatch, EnvAppend)
            && Before(log, EnvAppend, Install)
            && Before(log, Create, Record) && Before(log, Replace, Record) && Before(log, TrpcPatch, Record)
            && Before(log, EnvAppend, Record) && Before(log, Install, Record)
            && Before(log, Record, LayoutPatch)
  {
    var log := files + [signIn] + trpc + [env] + [install] + finish;
    StepsStaged(files, signIn, trpc, env, install, finish);
    StagedBefore(log, Create, TrpcPatch);
    StagedBefore(log, Replace, TrpcPatch);
    StagedBefore(log, Create, EnvAppend);
    StagedBefore(log, Replace, EnvAppend);
    StagedBefore(log, TrpcPatch, EnvAppend);
    StagedBefore(log, EnvAppend, Install);
    StagedBefore(log, Create, Record);
    StagedBefore(log, Replace, Record);
    StagedBefore(log, TrpcPatch, Record);
    StagedBefore(log, EnvAppend, Record);
    StagedBefore(log, Install, Record);
    StagedBefore(log, Record, LayoutPatch);
  }

  /** The order of the calls: the file writes precede the trpc patches,
      which precede the `.env` append, which precedes the package install;
      the add-on is recorded after all of them and before the layout is
      wrapped in the session provider. */
  lemma NextAuthLogOrder(providers: seq<string>, config: Config, installOk: bool)
    ensures var log := NextAuthLog(providers, config, installOk);
            && Before(log, Create, TrpcPatch) && Before(log, Replace, TrpcPatch)
            && Before(log, Create, EnvAppend) && Before(log, Replace, EnvAppend) && Before(log, TrpcPatch, EnvAppend)
            && Before(log, EnvAppend, Install)
            && Before(log, Create, Record) && Before(log, Replace, Record) && Before(log, TrpcPatch, Record)
            && Before(log, EnvAppend, Record) && Before(log, Install, Record)
            && Before(log, Record, LayoutPatch)
  {
    StepsOrder(AuthFiles(providers, config.hasSrc, config.driver), SignInStep(config.packages, config.hasSrc),
               TrpcSteps(config.packages), AddToDotEnv(EnvEntries(providers)),
               InstallPackages(AuthPackages, "", config.preferredPackageManager), FinishSteps(config.hasSrc, installOk));
  }

  /** Every file the log creates or replaces, and the layout it patches,
      lies under `src/` exactly when the project has a source directory. */
  lemma NextAuthLogRooted(providers: seq<string>, config: Config, installOk: bool)
    ensures Rooted(NextAuthLog(providers, config, installOk), config.hasSrc)
  {
    var hasSrc := config.hasSrc;
    var a := AuthFiles(providers, hasSrc, config.driver);
    var b := [SignInStep(config.packages, hasSrc)];
    var c := TrpcSteps(config.packages);
    var d := [AddToDotEnv(EnvEntries(providers))];
    var e := [InstallPackages(AuthPackages, "", config.preferredPackageManager)];
    var f := FinishSteps(hasSrc, installOk);
    RootedPath(hasSrc, "app/layout.tsx");
    assert Rooted(f, hasSrc);
    RootedAppend(a, b, hasSrc);
    RootedAppend(a + b, c, hasSrc);
    RootedAppend(a + b + c, d, hasSrc);
    RootedAppend(a + b + c + d, e, hasSrc);
    RootedAppend(a + b + c + d + e, f, hasSrc);
  }

  /** The sign-in view ends with the UI-library variant when that add-on is
      installed, with the plain template otherwise, whatever the outcome of
      the package install. */
  lemma NextAuthLogSignIn(providers: seq<string>, config: Config, installOk: bool)
    ensures LastWrite(NextAuthLog(providers, config, installOk), SignInPath(config.hasSrc)) ==
              Some(if ShadcnUi in config.packages then ShadcnSignInComponent else SignInComponent)
  {
    StepsSignIn(AuthFiles(providers, config.hasSrc, config.driver), SignInStep(config.packages, config.hasSrc),
                TrpcSteps(config.packages), AddToDotEnv(EnvEntries(providers)),
                InstallPackages(AuthPackages, "", config.preferredPackageManager), FinishSteps(config.hasSrc, installOk),
                SignInPath(config.hasSrc));
  }
}
