/** Conversion of ArgoCD resources between v1alpha1 and v1beta1
    (api/v1alpha1/argocd_conversion.go). Blocks both versions share field by field are opaque
    values; the blocks that lose or gain something are spelled out. */
module Conversion {
  import opened Lists
  import opened Sso

  /** The dex block of v1alpha1 has no env. */
  datatype AlphaDex = AlphaDex(config: string, groups: Option<seq<string>>, image: string, openShiftOAuth: bool,
                               resources: Option<string>, version: string)

  /** The last four fields are deprecated settings of keycloak. */
  datatype AlphaSSO<+K> = AlphaSSO(provider: string, dex: Option<AlphaDex>, keycloak: K,
                                   image: string, version: string, verifyTLS: Option<bool>, resources: Option<string>)

  /** A block with fields the conversion does not carry over; absent ones are empty. */
  datatype Block = Block(carried: string, dropped: string)

  datatype IgnoreDifference = IgnoreDifference(all: Option<string>, identifiers: Option<seq<string>>)

  /** Lists are optional because Go tells nil from empty. */
  datatype Shared = Shared(meta: string, status: string, rest: string, grafana: Block,
                           kustomizeVersions: Option<seq<string>>, healthChecks: Option<seq<string>>,
                           actions: Option<seq<string>>, ignoreDifferences: Option<IgnoreDifference>)

  datatype Alpha = Alpha(shared: Shared, sso: Option<AlphaSSO<Option<Keycloak>>>, dex: Option<AlphaDex>,
                         applicationSet: Option<string>, controller: string, redis: string, repo: string, server: string,
                         resourceCustomizations: string)

  datatype Beta = Beta(shared: Shared, sso: Option<SSO<Option<Keycloak>>>,
                       applicationSet: Option<Block>, controller: Block, redis: Block, repo: Block, server: Block)

  // ---- Single sign-on ----

  predicate HasDeprecated<K>(sso: AlphaSSO<K>) {
    sso.image != "" || sso.version != "" || sso.verifyTLS.Some? || sso.resources.Some?
  }

  /** The deprecated dex block takes precedence when it is active. */
  predicate Active(dex: Option<AlphaDex>) {
    dex.Some? && (dex.value.config != "" || dex.value.openShiftOAuth)
  }

  function ForwardDex(dex: Option<AlphaDex>): Option<Dex> {
    match dex
    case None => None
    case Some(d) => Some(Dex(d.config, d.groups, d.image, d.openShiftOAuth, d.resources, d.version, None))
  }

  function BackwardDex(dex: Option<Dex>): Option<AlphaDex> {
    match dex
    case None => None
    case Some(d) => Some(AlphaDex(d.config, d.groups, d.image, d.openShiftOAuth, d.resources, d.version))
  }

  const NO_KEYCLOAK := Keycloak("", None, "", "", None, "")

  /** Deprecated settings replace those of the keycloak block. */
  function Overridden<K>(keycloak: Keycloak, sso: AlphaSSO<K>): Keycloak {
    keycloak.(image := sso.image, version := sso.version, verifyTLS := sso.verifyTLS, resources := sso.resources)
  }

  function ForwardKeycloak(sso: AlphaSSO<Option<Keycloak>>): Option<Keycloak> {
    if HasDeprecated(sso) then Some(Overridden(if sso.keycloak.Some? then sso.keycloak.value else NO_KEYCLOAK, sso))
    else sso.keycloak
  }

  function ForwardSSO(sso: Option<AlphaSSO<Option<Keycloak>>>, dex: Option<AlphaDex>): Option<SSO<Option<Keycloak>>> {
    var keycloak := if sso.Some? then ForwardKeycloak(sso.value) else None;
    if Active(dex) then Some(SSO("dex", ForwardDex(dex), keycloak))
    else if sso.Some? then Some(SSO(sso.value.provider, ForwardDex(sso.value.dex), keycloak))
    else None
  }

  function BackwardSSO(sso: Option<SSO<Option<Keycloak>>>): Option<AlphaSSO<Option<Keycloak>>> {
    match sso
    case None => None
    case Some(s) => Some(AlphaSSO(s.provider, BackwardDex(s.dex), s.keycloak, "", "", None, None))
  }

  /** A keycloak block on the heap: both versions point to the same one after a conversion. */
  class KeycloakBlock {
    var spec: Keycloak

    constructor (spec: Keycloak)
      ensures this.spec == spec
    {
      this.spec := spec;
    }
  }

  function Target(sso: Option<AlphaSSO<KeycloakBlock?>>): set<KeycloakBlock> {
    if sso.Some? && sso.value.keycloak != null then {sso.value.keycloak} else {}
  }

  ghost function View(block: KeycloakBlock?): Option<Keycloak>
    reads block
  {
    if block == null then None else Some(block.spec)
  }

  ghost function AlphaView(sso: Option<AlphaSSO<KeycloakBlock?>>): Option<AlphaSSO<Option<Keycloak>>>
    reads Target(sso)
  {
    match sso
    case None => None
    case Some(s) => Some(AlphaSSO(s.provider, s.dex, View(s.keycloak), s.image, s.version, s.verifyTLS, s.resources))
  }

  /** The conversion writes through the shared pointer: the result is as intended, and the
      input is changed exactly when it has both a keycloak block and deprecated settings that
      differ from it. */
  method ConvertToSSO(src: Option<AlphaSSO<KeycloakBlock?>>, dex: Option<AlphaDex>) returns (sso: Option<SSO<KeycloakBlock?>>)
    modifies Target(src)
    ensures ForwardSSO(old(AlphaView(src)), dex) == if sso.None? then None
      else Some(SSO(sso.value.provider, sso.value.dex, View(sso.value.keycloak)))
    ensures src.Some? && src.value.keycloak != null ==> sso.Some? && sso.value.keycloak == src.value.keycloak
    ensures AlphaView(src) == old(AlphaView(src)) <==>
      !(src.Some? && src.value.keycloak != null && HasDeprecated(src.value) &&
        old(src.value.keycloak.spec) != Overridden(old(src.value.keycloak.spec), src.value))
  {
    sso := None;
    if src.Some? {
      sso := Some(SSO(src.value.provider, ForwardDex(src.value.dex), src.value.keycloak));
      if src.value.image != "" || src.value.version != "" || src.value.verifyTLS.Some? || src.value.resources.Some? {
        if sso.value.keycloak == null {
          var block := new KeycloakBlock(NO_KEYCLOAK);
          sso := Some(sso.value.(keycloak := block));
        }
        var keycloak := sso.value.keycloak;
        keycloak.spec := keycloak.spec.(image := src.value.image);
        keycloak.spec := keycloak.spec.(version := src.value.version);
        keycloak.spec := keycloak.spec.(verifyTLS := src.value.verifyTLS);
        keycloak.spec := keycloak.spec.(resources := src.value.resources);
      }
    }
    if dex.Some? && (dex.value.config != "" || dex.value.openShiftOAuth) {
      if sso.None? {
        sso := Some(SSO("", None, null));
      }
      sso := Some(sso.value.(provider := "dex", dex := ForwardDex(dex)));
    }
  }

  /** Every keycloak block can be written to by a conversion of an object that refers to it. */
  method InputWritten(block: KeycloakBlock) returns (src: AlphaSSO<KeycloakBlock?>, sso: Option<SSO<KeycloakBlock?>>)
    modifies block
    ensures src.keycloak == block && sso.Some? && sso.value.keycloak == block
    ensures block.spec != old(block.spec) && block.spec == Overridden(old(block.spec), src)
  {
    src := AlphaSSO("keycloak", None, block, block.spec.image + "x", "", None, None);
    assert |block.spec.image + "x"| != |block.spec.image|;
    sso := ConvertToSSO(Some(src), None);
  }

  // ---- Lists ----

  /** The list converters append element by element to a nil slice. */
  method ConvertList(src: Option<seq<string>>) returns (dst: Option<seq<string>>)
    ensures dst == Relisted(src)
  {
    dst := None;
    var items := if src.Some? then src.value else [];
    for i := 0 to |items|
      invariant dst == if i == 0 then None else Some(items[..i])
    {
      var front := if dst.Some? then dst.value else [];
      assert front == items[..i];
      dst := Some(front + [items[i]]);
      assert items[..i + 1] == front + [items[i]];
    }
    assert items[..|items|] == items;
  }

  function Relisted(list: Option<seq<string>>): Option<seq<string>> {
    if list == Some([]) then None else list
  }

  // ---- Whole objects ----

  function ForwardShared(s: Shared): Shared {
    s.(grafana := Block(s.grafana.carried, ""),
       kustomizeVersions := Relisted(s.kustomizeVersions), healthChecks := Relisted(s.healthChecks),
       actions := Relisted(s.actions),
       ignoreDifferences := match s.ignoreDifferences
                            case None => None
                            case Some(d) => Some(IgnoreDifference(d.all, Relisted(d.identifiers))))
  }

  function Forward(a: Alpha): Beta {
    Beta(ForwardShared(a.shared), ForwardSSO(a.sso, a.dex),
         if a.applicationSet.Some? then Some(Block(a.applicationSet.value, "")) else None,
         Block(a.controller, ""), Block(a.redis, ""), Block(a.repo, ""), Block(a.server, ""))
  }

  function Backward(b: Beta): Alpha {
    Alpha(ForwardShared(b.shared), BackwardSSO(b.sso), None,
          if b.applicationSet.Some? then Some(b.applicationSet.value.carried) else None,
          b.controller.carried, b.redis.carried, b.repo.carried, b.server.carried, "")
  }

  /** Every field goes to the field of the same name, in both directions. */
  lemma FieldsKeepTheirNames(a: Alpha, b: Beta)
    ensures var f := Forward(a);
      && SharedFields(a.shared, f.shared)
      && (f.applicationSet.Some? <==> a.applicationSet.Some?)
      && (a.applicationSet.Some? ==> f.applicationSet.value.carried == a.applicationSet.value)
      && f.controller.carried == a.controller && f.redis.carried == a.redis
      && f.repo.carried == a.repo && f.server.carried == a.server
    ensures var f := Backward(b);
      && SharedFields(b.shared, f.shared)
      && (f.applicationSet.Some? <==> b.applicationSet.Some?)
      && (b.applicationSet.Some? ==> f.applicationSet.value == b.applicationSet.value.carried)
      && f.controller == b.controller.carried && f.redis == b.redis.carried
      && f.repo == b.repo.carried && f.server == b.server.carried
  {
  }

  /** Lists have the same elements, whether or not empty ones are told from absent ones. */
  ghost predicate SharedFields(s: Shared, t: Shared) {
    && t.meta == s.meta && t.status == s.status && t.rest == s.rest && t.grafana.carried == s.grafana.carried
    && Elements(t.kustomizeVersions) == Elements(s.kustomizeVersions)
    && Elements(t.healthChecks) == Elements(s.healthChecks) && Elements(t.actions) == Elements(s.actions)
    && (t.ignoreDifferences.Some? <==> s.ignoreDifferences.Some?)
    && (s.ignoreDifferences.Some? ==>
          && t.ignoreDifferences.value.all == s.ignoreDifferences.value.all
          && Elements(t.ignoreDifferences.value.identifiers) == Elements(s.ignoreDifferences.value.identifiers))
  }

  function Elements(list: Option<seq<string>>): seq<string> {
    if list.Some? then list.value else []
  }

  predicate SameDex(a: AlphaDex, b: Dex) {
    && a.config == b.config && a.groups == b.groups && a.image == b.image && a.openShiftOAuth == b.openShiftOAuth
    && a.resources == b.resources && a.version == b.version
  }

  /** Single sign-on goes the same way, except that deprecated settings win over the keycloak
      block all together, where one of them is set, and an active deprecated dex block wins over
      provider and dex block. */
  lemma DeprecatedWin(a: Alpha)
    ensures var f := Forward(a).sso; var given := a.sso;
      var active := a.dex.Some? && (a.dex.value.config != "" || a.dex.value.openShiftOAuth);
      && (f.Some? <==> given.Some? || active)
      && (active ==> f.value.provider == "dex" && f.value.dex.Some? && SameDex(a.dex.value, f.value.dex.value))
      && (!active && given.Some? ==>
            && f.value.provider == given.value.provider && (f.value.dex.Some? <==> given.value.dex.Some?)
            && (f.value.dex.Some? ==> SameDex(given.value.dex.value, f.value.dex.value)))
      && (given.None? && active ==> f.value.keycloak.None?)
      && (given.Some? ==>
            var k := f.value.keycloak;
            if given.value.image == "" && given.value.version == "" && given.value.verifyTLS.None? && given.value.resources.None?
            then k == given.value.keycloak
            else
              && k.Some? && k.value.image == given.value.image && k.value.version == given.value.version
              && k.value.verifyTLS == given.value.verifyTLS && k.value.resources == given.value.resources
              && k.value.rootCA == (if given.value.keycloak.Some? then given.value.keycloak.value.rootCA else "")
              && k.value.host == (if given.value.keycloak.Some? then given.value.keycloak.value.host else ""))
  {
  }

  /** Back again nothing is deprecated. */
  lemma NothingDeprecated(b: Beta)
    ensures var a := Backward(b);
      && a.dex.None? && a.resourceCustomizations == "" && (a.sso.Some? <==> b.sso.Some?)
      && (a.sso.Some? ==>
            && a.sso.value.provider == b.sso.value.provider && a.sso.value.keycloak == b.sso.value.keycloak
            && a.sso.value.image == "" && a.sso.value.version == "" && a.sso.value.verifyTLS.None? && a.sso.value.resources.None?
            && (a.sso.value.dex.Some? <==> b.sso.value.dex.Some?)
            && (a.sso.value.dex.Some? ==> SameDex(a.sso.value.dex.value, b.sso.value.dex.value)))
  {
  }

  /** Forward, back and forward again is forward; and the other way round. */
  lemma RoundTrips(a: Alpha, b: Beta)
    ensures Forward(Backward(Forward(a))) == Forward(a)
    ensures Backward(Forward(Backward(b))) == Backward(b)
  {
    PlainIff(a.shared);
    PlainIff(b.shared);
    SSORoundTrips(a.sso, a.dex, b.sso);
  }

  lemma SSORoundTrips(a: Option<AlphaSSO<Option<Keycloak>>>, dex: Option<AlphaDex>, b: Option<SSO<Option<Keycloak>>>)
    ensures ForwardSSO(BackwardSSO(ForwardSSO(a, dex)), None) == ForwardSSO(a, dex)
    ensures BackwardSSO(ForwardSSO(BackwardSSO(b), None)) == BackwardSSO(b)
  {
  }

  /** No list that is present but empty, and nothing in the fields of grafana that both
      versions have and the conversion forgets. */
  predicate Plain(s: Shared) {
    && s.grafana.dropped == ""
    && s.kustomizeVersions != Some([]) && s.healthChecks != Some([]) && s.actions != Some([])
    && (s.ignoreDifferences.Some? ==> s.ignoreDifferences.value.identifiers != Some([]))
  }

  /** A v1alpha1 object survives a round trip exactly when it uses nothing deprecated. */
  lemma AlphaSurvivesIff(a: Alpha)
    ensures Backward(Forward(a)) == a <==>
      && Plain(a.shared) && a.dex.None? && (a.sso.Some? ==> !HasDeprecated(a.sso.value))
      && a.resourceCustomizations == ""
  {
    PlainIff(a.shared);
  }

  /** A v1beta1 object survives a round trip exactly when it uses nothing new. */
  lemma BetaSurvivesIff(b: Beta)
    ensures Forward(Backward(b)) == b <==>
      && Plain(b.shared)
      && (b.sso.Some? && b.sso.value.dex.Some? ==> b.sso.value.dex.value.env.None?)
      && (b.applicationSet.Some? ==> b.applicationSet.value.dropped == "")
      && b.controller.dropped == "" && b.redis.dropped == "" && b.repo.dropped == "" && b.server.dropped == ""
  {
    PlainIff(b.shared);
  }

  /** The resources of grafana, say, are a field of both versions and do not survive. */
  lemma GrafanaForgotten(a: Alpha, dropped: string)
    requires dropped != ""
    ensures var lost := a.(shared := a.shared.(grafana := a.shared.grafana.(dropped := dropped)));
      Backward(Forward(lost)) != lost && Forward(lost) == Forward(a)
  {
  }

  /** The env of the dex block of v1beta1 does not survive either. */
  lemma DexEnvForgotten(b: Beta, dex: Dex)
    requires b.sso.Some? && dex.env.Some?
    ensures var lost := b.(sso := Some(b.sso.value.(dex := Some(dex))));
      var without := b.(sso := Some(b.sso.value.(dex := Some(dex.(env := None)))));
      Forward(Backward(lost)) != lost && Backward(lost) == Backward(without)
  {
  }

  lemma PlainIff(s: Shared)
    ensures ForwardShared(s) == s <==> Plain(s)
    ensures ForwardShared(ForwardShared(s)) == ForwardShared(s)
  {
  }

  /** Converting an input that an earlier conversion has written to gives the same again. */
  lemma ConvertAgain(sso: AlphaSSO<Option<Keycloak>>, dex: Option<AlphaDex>)
    requires sso.keycloak.Some? && HasDeprecated(sso)
    ensures ForwardSSO(Some(sso.(keycloak := Some(Overridden(sso.keycloak.value, sso)))), dex) == ForwardSSO(Some(sso), dex)
  {
  }

  /** An active deprecated dex block converts to a legal single sign-on setup exactly when the
      object has neither a keycloak block nor a deprecated keycloak setting. */
  lemma DeprecatedDexLegalIff(a: Alpha, templateAPI: bool, deploymentConfigAPI: bool)
    requires Active(a.dex)
    ensures Forward(a).sso.Some?
    ensures Legal(Forward(a).sso.value, templateAPI, deploymentConfigAPI) <==>
      (a.sso.Some? ==> a.sso.value.keycloak.None? && !HasDeprecated(a.sso.value))
  {
    assert ToLower("dex") == "dex";
    assert |"dex"| != |"keycloak"|;
  }
}
