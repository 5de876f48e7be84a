/** Grafana's SSO settings as one cell that is read whole and written whole, and the sync that edits it. */
module Sso {
  import opened OrgMapping

  /** A JSON value: a string, or something that is not one. */
  datatype Value = Str(text: string) | NonStr(token: nat)

  /** The settings of the provider: not configured, or a payload that may or may not be a map. */
  datatype Settings = Absent | NotAMap | Present(entries: map<string, Value>)

  datatype GetResult = Failed | NotFound | Payload(settings: Settings)

  datatype MapOrError = Error | Ok(entries: map<string, Value>)

  const ORG_MAPPING := "orgMapping"

  /** The mapping text in a settings map; the empty string when there is none or it is not a string. */
  function MappingText(entries: map<string, Value>): string {
    if ORG_MAPPING in entries && entries[ORG_MAPPING].Str? then entries[ORG_MAPPING].text else ""
  }

  /** The settings with a new mapping text, everything else as it was. */
  function Written(s: Settings, text: string): (s': Settings)
    requires !s.NotAMap?
    ensures s'.Present? && MappingText(s'.entries) == text
    ensures s.Present? ==> s'.entries - {ORG_MAPPING} == s.entries - {ORG_MAPPING}
  {
    Present((if s.Absent? then map[] else s.entries)[ORG_MAPPING := Str(text)])
  }

  /** `SSOClient`. Whether a call reaches Grafana is the environment's choice (`ok`). */
  class SsoClient {
    var settings: Settings
    ghost var puts: nat

    method GetProviderSettings(ok: bool) returns (r: GetResult)
      ensures r == if !ok then Failed else if settings.Absent? then NotFound else Payload(settings)
    {
      if !ok {
        return Failed;
      }
      r := if settings.Absent? then NotFound else Payload(settings);
    }

    method UpdateProviderSettings(entries: map<string, Value>, ok: bool)
      modifies this
      ensures settings == if ok then Present(entries) else old(settings)
      ensures puts == old(puts) + if ok then 1 else 0
    {
      if ok {
        settings := Present(entries);
        puts := puts + 1;
      }
    }
  }

  /** `getOrInitSettings`. */
  method GetOrInitSettings(sso: SsoClient, getOk: bool) returns (r: MapOrError)
    ensures r.Ok? <==> getOk && !sso.settings.NotAMap?
    ensures r.Ok? ==> r.entries == if sso.settings.Absent? then map[] else sso.settings.entries
  {
    var resp := sso.GetProviderSettings(getOk);
    match resp
    case Failed => r := Error;
    case NotFound => r := Ok(map[]);
    case Payload(s) => r := if s.Present? then Ok(s.entries) else Error;
  }

  /** `SyncOrgMapping`: rewrites the mapping from all tenants and keeps every other setting. */
  method SyncOrgMapping(sso: SsoClient, tenants: seq<TenantMapping>, getOk: bool, putOk: bool) returns (ok: bool)
    modifies sso
    ensures ok <==> getOk && putOk && !old(sso.settings).NotAMap?
    ensures sso.settings == if ok then Written(old(sso.settings), Mapping(tenants)) else old(sso.settings)
    ensures ok ==> && sso.settings.Present?
                   && "orgMapping" in sso.settings.entries
                   && sso.settings.entries["orgMapping"] == Str(Mapping(tenants))
    ensures sso.puts == old(sso.puts) + if ok then 1 else 0
  {
    var settings := GetOrInitSettings(sso, getOk);
    if settings.Error? {
      return false;
    }
    var text := BuildOrgMapping(tenants);
    sso.UpdateProviderSettings(settings.entries[ORG_MAPPING := Str(text)], putOk);
    return putOk;
  }
}
