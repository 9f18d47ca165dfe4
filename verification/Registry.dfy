/**
  The action registry (internal/action/registry.go): a whitelist of action types rebuilt from a
  configuration file, at start-up and at every reload.
 */
module Registry {
  import opened Wrappers

  const CANONICAL: seq<string> := ["create_followup_task", "notify_owner", "export_report", "create_outbox_message"]

  /** The parts of an action's configuration that decide whether it is enabled and how it is validated. */
  datatype ActionConfig = ActionConfig(enabled: Option<bool>, version: string, schema: string)

  const DEFAULT_CONFIG := ActionConfig(None, "", "")

  /** What reading and parsing the YAML file may answer; the actions block may be absent. */
  datatype FileRead =
    | NotExist
    | Unreadable
    | Malformed
    | Parsed(actions: Option<map<string, ActionConfig>>)

  datatype LoadError = FileNotExist | ReadFailed | ParseFailed

  /** An explicit `enabled: false` is the only way to switch a configured action off. */
  predicate Enabled(cfg: ActionConfig) {
    cfg.enabled != Some(false)
  }

  /** The configuration that survives loading: canonical, configured and not switched off. */
  function Effective(file: map<string, ActionConfig>): map<string, ActionConfig> {
    map a | a in file && a in CANONICAL && Enabled(file[a]) :: file[a]
  }

  function Defaults(): map<string, ActionConfig> {
    map a | a in CANONICAL :: DEFAULT_CONFIG
  }

  /** The four kinds of action. */
  lemma CanonicalActions(a: string)
    ensures a in CANONICAL <==>
              a == "create_followup_task" || a == "notify_owner" || a == "export_report" || a == "create_outbox_message"
  {
    assert CANONICAL[0] == "create_followup_task" && CANONICAL[1] == "notify_owner";
    assert CANONICAL[2] == "export_report" && CANONICAL[3] == "create_outbox_message";
  }

  /** What is in force of a configuration file: canonical entries, unchanged, unless they say `enabled: false`. */
  lemma InForce(file: map<string, ActionConfig>, a: string)
    ensures a in Effective(file) <==>
              && a in file && file[a].enabled != Some(false)
              && (a == "create_followup_task" || a == "notify_owner" || a == "export_report"
                  || a == "create_outbox_message")
    ensures a in Effective(file) ==> Effective(file)[a] == file[a]
    ensures a in Defaults() <==>
              a == "create_followup_task" || a == "notify_owner" || a == "export_report" || a == "create_outbox_message"
    ensures a in Defaults() ==> Defaults()[a].enabled.None? && Defaults()[a].schema == ""
  {
    CanonicalActions(a);
  }

  class ActionRegistry {
    var actions: map<string, ActionConfig>
    var whitelist: set<string>
    var configLoaded: bool

    /** Every lookup through the whitelist finds a configuration, and only canonical types pass. */
    ghost predicate Valid()
      reads this
    {
      && whitelist == actions.Keys
      && (forall a :: a in whitelist ==> a in CANONICAL)
    }

    /** NewEmptyRegistry: nothing is allowed. */
    constructor Empty()
      ensures Valid() && whitelist == {} && !configLoaded
    {
      actions, whitelist, configLoaded := map[], {}, false;
    }

    /** NewActionRegistry: a missing file allows every canonical action, any other failure is an error. */
    constructor FromFile(file: FileRead)
      requires file.NotExist? || file.Parsed?
      ensures Valid()
      ensures file.NotExist? ==> actions == Defaults() && !configLoaded
      ensures file.Parsed? ==> actions == Effective(file.actions.GetOr(map[])) && configLoaded
    {
      actions, whitelist, configLoaded := map[], {}, false;
      new;
      var err := LoadFile(file);
      if err == Some(FileNotExist) {
        configLoaded := false;
        WhitelistActions();
      }
    }

    /** loadFile: a failed read or parse leaves the registry exactly as it was. */
    method LoadFile(file: FileRead) returns (err: Option<LoadError>)
      modifies this
      ensures err.None? <==> file.Parsed?
      ensures err == Some(FileNotExist) <==> file.NotExist?
      ensures err.None? ==> Valid() && configLoaded && actions == Effective(file.actions.GetOr(map[]))
      ensures err.Some? ==> actions == old(actions) && whitelist == old(whitelist) && configLoaded == old(configLoaded)
    {
      match file
      case NotExist => return Some(FileNotExist);
      case Unreadable => return Some(ReadFailed);
      case Malformed => return Some(ParseFailed);
      case Parsed(configured) =>
        actions := configured.GetOr(map[]);
        configLoaded := true;
        WhitelistActions();
        return None;
    }

    /** Reload keeps the registry consistent whether or not the file can be loaded. */
    method Reload(file: FileRead) returns (err: Option<LoadError>)
      requires Valid()
      modifies this
      ensures Valid()
      ensures err.None? <==> file.Parsed?
      ensures err.None? ==> actions == Effective(file.actions.GetOr(map[]))
      ensures err.Some? ==> actions == old(actions)
    {
      err := LoadFile(file);
    }

    /** whitelistActions: deletes what is not canonical, then rebuilds the whitelist entry by entry. */
    method WhitelistActions()
      modifies this
      ensures Valid() && configLoaded == old(configLoaded)
      ensures actions == if configLoaded then Effective(old(actions)) else Defaults()
    {
      whitelist := {};
      if configLoaded {
        DeleteUnknown();
        RebuildWhitelist(CANONICAL);
      } else {
        EnableDefaults(CANONICAL);
      }
    }

    method EnableDefaults(canonical: seq<string>)
      modifies this`actions, this`whitelist
      ensures whitelist == actions.Keys
      ensures actions == map a | a in canonical :: DEFAULT_CONFIG
    {
      actions, whitelist := map[], {};
      for i := 0 to |canonical|
        invariant actions == map a | a in canonical[..i] :: DEFAULT_CONFIG
        invariant whitelist == actions.Keys
      {
        whitelist := whitelist + {canonical[i]};
        actions := actions[canonical[i] := DEFAULT_CONFIG];
      }
    }

    /** The last loop of whitelistActions: an entry switched off leaves the configuration too. */
    method RebuildWhitelist(canonical: seq<string>)
      requires forall a :: a in actions ==> a in canonical
      modifies this`actions, this`whitelist
      ensures whitelist == actions.Keys
      ensures actions == map a | a in old(actions) && Enabled(old(actions)[a]) :: old(actions)[a]
    {
      ghost var known := actions;
      whitelist := {};
      for i := 0 to |canonical|
        invariant whitelist == set a | a in known && a in canonical[..i] && Enabled(known[a])
        invariant actions == map a | a in known && (a in canonical[..i] ==> Enabled(known[a])) :: known[a]
      {
        var key := canonical[i];
        assert canonical[..i + 1] == canonical[..i] + [key];
        if key in actions {
          if actions[key].enabled != Some(false) {
            whitelist := whitelist + {key};
          } else {
            actions := actions - {key};
          }
        }
      }
      assert canonical[..|canonical|] == canonical;
    }

    /** The first loop of whitelistActions, in whatever order the map is iterated. */
    method DeleteUnknown()
      modifies this`actions
      ensures actions == map a | a in old(actions) && a in CANONICAL :: old(actions)[a]
    {
      var pending := actions.Keys;
      while pending != {}
        invariant pending <= actions.Keys <= old(actions).Keys
        invariant forall a :: a in old(actions) && (a in CANONICAL || a in pending) ==> a in actions
        invariant forall a :: a in actions ==> actions[a] == old(actions)[a] && (a in CANONICAL || a in pending)
      {
        var key :| key in pending;
        pending := pending - {key};
        if key !in CANONICAL {
          actions := actions - {key};
        }
      }
    }

    predicate IsAllowed(actionType: string): (allowed: bool)
      reads this
      ensures allowed <==> actionType in whitelist
    {
      actionType in whitelist
    }
  }
}
