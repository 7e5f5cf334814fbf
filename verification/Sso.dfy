/** Legality of the single sign-on part of a v1beta1 resource (controllers/argocd/sso.go). */
module Sso {
  import opened Lists

  datatype Keycloak = Keycloak(image: string, resources: Option<string>, rootCA: string, version: string,
                               verifyTLS: Option<bool>, host: string)

  datatype Dex = Dex(config: string, groups: Option<seq<string>>, image: string, openShiftOAuth: bool,
                     resources: Option<string>, version: string, env: Option<seq<string>>)

  /** The keycloak block is a type parameter, so that it can be a value or a reference. */
  datatype SSO<+K> = SSO(provider: string, dex: Option<Dex>, keycloak: K)

  datatype Status = Unknown | Success | Failed

  /** strings.ToLower, exact for the letters that matter to the two provider names. */
  function Lower(c: char): char {
    if 'A' <= c <= 'Z' then c - 'A' + 'a' else if c == '\U{212A}' then 'k' else c
  }

  function ToLower(s: string): string {
    seq(|s|, i requires 0 <= i < |s| => Lower(s[i]))
  }

  predicate Configured(dex: Dex) {
    dex.openShiftOAuth || dex.config != ""
  }

  /** One of the two providers is named and the block of the other is absent. Dex also needs a
      configuration; keycloak needs no block. */
  predicate Legal(sso: SSO<Option<Keycloak>>, templateAPI: bool, deploymentConfigAPI: bool) {
    || (ToLower(sso.provider) == "dex" && sso.dex.Some? && Configured(sso.dex.value) && sso.keycloak.None?)
    || (ToLower(sso.provider) == "keycloak" && sso.dex.None? && (templateAPI ==> deploymentConfigAPI))
  }

  /** The provider is compared without regard to case. Each legal setup names dex or keycloak, and
      these are all the ways in which a setup that does is illegal. */
  lemma IllegalIff(sso: SSO<Option<Keycloak>>, templateAPI: bool, deploymentConfigAPI: bool)
    ensures Named(sso.provider, "dex") ==>
      (!Legal(sso, templateAPI, deploymentConfigAPI) <==>
        sso.dex.None? || (sso.dex.value.config == "" && !sso.dex.value.openShiftOAuth) || sso.keycloak.Some?)
    ensures Named(sso.provider, "keycloak") ==>
      (!Legal(sso, templateAPI, deploymentConfigAPI) <==> sso.dex.Some? || (templateAPI && !deploymentConfigAPI))
    ensures !Named(sso.provider, "dex") && !Named(sso.provider, "keycloak") ==> !Legal(sso, templateAPI, deploymentConfigAPI)
  {
    NamedIff(sso.provider, "dex");
    NamedIff(sso.provider, "keycloak");
    assert |"dex"| != |"keycloak"|;
  }

  /** The same letters, where a letter may be upper case; the Kelvin sign is an upper case k. */
  predicate Named(provider: string, name: string) {
    |provider| == |name| && forall i :: 0 <= i < |name| ==>
      || provider[i] == name[i]
      || ('a' <= name[i] <= 'z' && provider[i] as int == name[i] as int - 32)
      || (name[i] == 'k' && provider[i] == '\U{212A}')
  }

  lemma NamedIff(provider: string, name: string)
    requires forall c :: c in name ==> 'a' <= c <= 'z'
    ensures ToLower(provider) == name <==> Named(provider, name)
  {
    if Named(provider, name) {
      forall i | 0 <= i < |name| ensures Lower(provider[i]) == name[i] {
        assert name[i] in name;
      }
    }
    if ToLower(provider) == name {
      forall i | 0 <= i < |name| ensures Lower(provider[i]) == name[i] {
        assert ToLower(provider)[i] == name[i];
      }
    }
  }

  /** The decision cascade; without a block nothing is decided. */
  method Classify(sso: Option<SSO<Option<Keycloak>>>, templateAPI: bool, deploymentConfigAPI: bool)
    returns (status: Status, error: bool)
    ensures sso.None? ==> status == Unknown && !error
    ensures sso.Some? ==> status == if Legal(sso.value, templateAPI, deploymentConfigAPI) then Success else Failed
    ensures error <==> status == Failed
  {
    status, error := Unknown, false;
    if sso.None? {
      return;
    }
    var block := sso.value;
    assert "dex" != "keycloak" && "" != "dex" && "" != "keycloak" by {
      assert |"dex"| == 3 && |"keycloak"| == 8;
    }
    if ToLower(block.provider) == "dex" {
      var isError := false;
      if block.dex.None? || (block.dex.Some? && !block.dex.value.openShiftOAuth && block.dex.value.config == "") {
        isError := true;
      } else if block.keycloak.Some? {
        isError := true;
      }
      if isError {
        return Failed, true;
      }
    }
    if ToLower(block.provider) == "keycloak" {
      if block.dex.Some? {
        return Failed, true;
      }
      if templateAPI && !deploymentConfigAPI {
        return Failed, true;
      }
    }
    if ToLower(block.provider) == "" {
      if block.dex.Some? || block.keycloak.Some? {
        return Failed, true;
      }
    }
    if ToLower(block.provider) != "dex" && ToLower(block.provider) != "keycloak" {
      return Failed, true;
    }
    status := Success;
  }
}
