/** Edits of a Codex `config.toml` document tree: pointing it at the gateway, and taking the gateway out again. */
module ConfigPatch {

  /** A TOML item. Only standard tables are edited; inline tables are values. */
  datatype Item =
    | Str(text: string)
    | Scalar(literal: string)
    | Inline(fields: map<string, Item>)
    | Array(items: seq<Item>)
    | Table(entries: map<string, Item>)

  const PROVIDER_ID := "cm"
  const MODEL_PROVIDER := "model_provider"
  const MODEL_PROVIDERS := "model_providers"

  /** `config_uses_managed_provider` */
  predicate UsesManagedProvider(root: map<string, Item>) {
    MODEL_PROVIDER in root && root[MODEL_PROVIDER] == Str(PROVIDER_ID)
  }

  function ProviderTable(baseUrl: string): Item {
    Table(map["name" := Str("CodexManager"), "base_url" := Str(baseUrl), "wire_api" := Str("responses")])
  }

  /** The providers of a document, none if the key is absent. */
  function Providers(root: map<string, Item>): map<string, Item> {
    if MODEL_PROVIDERS in root && root[MODEL_PROVIDERS].Table? then root[MODEL_PROVIDERS].entries else map[]
  }

  predicate PatchableForGateway(root: map<string, Item>) {
    MODEL_PROVIDERS in root ==> root[MODEL_PROVIDERS].Table?
  }

  function GatewayPatched(root: map<string, Item>, baseUrl: string): map<string, Item> {
    root[MODEL_PROVIDER := Str(PROVIDER_ID)][MODEL_PROVIDERS := Table(Providers(root)[PROVIDER_ID := ProviderTable(baseUrl)])]
  }

  function DirectPatched(root: map<string, Item>): map<string, Item> {
    var unpointed := if UsesManagedProvider(root) then root - {MODEL_PROVIDER} else root;
    if MODEL_PROVIDERS in root && root[MODEL_PROVIDERS].Table? then
      var others := Providers(root) - {PROVIDER_ID};
      if others == map[] then unpointed - {MODEL_PROVIDERS} else unpointed[MODEL_PROVIDERS := Table(others)]
    else unpointed
  }

  // ---- The edits key by key

  /** The managed provider is selected and described anew; every other provider and every other key stays. */
  ghost predicate PointsAtGateway(before: map<string, Item>, after: map<string, Item>, baseUrl: string) {
    && after.Keys == before.Keys + {"model_provider", "model_providers"}
    && after["model_provider"] == Str("cm")
    && after["model_providers"].Table?
    && (var providers := after["model_providers"].entries;
        && "cm" in providers
        && providers["cm"] == Table(map["name" := Str("CodexManager"), "base_url" := Str(baseUrl), "wire_api" := Str("responses")])
        && (forall k | k != "cm" ::
              && (k in providers <==>
                  && "model_providers" in before && before["model_providers"].Table?
                  && k in before["model_providers"].entries)
              && (k in providers ==> providers[k] == before["model_providers"].entries[k])))
    && forall k | k in before && k != "model_provider" && k != "model_providers" :: after[k] == before[k]
  }

  /** The selection goes if it is the managed provider, the managed provider goes, and a provider table left empty goes;
      everything else stays. */
  ghost predicate PointsAway(before: map<string, Item>, after: map<string, Item>) {
    && ("model_provider" in after <==> "model_provider" in before && before["model_provider"] != Str("cm"))
    && ("model_provider" in after ==> after["model_provider"] == before["model_provider"])
    && ("model_providers" in after <==>
        && "model_providers" in before
        && (before["model_providers"].Table? ==> exists k :: k in before["model_providers"].entries && k != "cm"))
    && ("model_providers" in after && !before["model_providers"].Table? ==>
          after["model_providers"] == before["model_providers"])
    && ("model_providers" in after && before["model_providers"].Table? ==>
          after["model_providers"] == Table(before["model_providers"].entries - {"cm"}))
    && forall k | k != "model_provider" && k != "model_providers" ::
         (k in after <==> k in before) && (k in after ==> after[k] == before[k])
  }

  class Document {
    var root: map<string, Item>

    constructor (root: map<string, Item>)
      ensures this.root == root
    {
      this.root := root;
    }

    method PatchForDirect()
      modifies this
      ensures root == DirectPatched(old(root))
      ensures PointsAway(old(root), root)
    {
      if MODEL_PROVIDER in root && root[MODEL_PROVIDER] == Str(PROVIDER_ID) {
        root := root - {MODEL_PROVIDER};
      }
      if MODEL_PROVIDERS in root && root[MODEL_PROVIDERS].Table? {
        var providers := root[MODEL_PROVIDERS].entries - {PROVIDER_ID};
        root := root[MODEL_PROVIDERS := Table(providers)];
        if providers == map[] {
          root := root - {MODEL_PROVIDERS};
        }
      }
      DirectPointsAway(old(root));
    }

    /** Fails after the first edit when `model_providers` is not a table; the caller then discards the document. */
    method PatchForGateway(baseUrl: string) returns (ok: bool)
      modifies this
      ensures ok <==> PatchableForGateway(old(root))
      ensures ok <==> ("model_providers" in old(root) ==> old(root)["model_providers"].Table?)
      ensures ok ==> root == GatewayPatched(old(root), baseUrl)
      ensures ok ==> PointsAtGateway(old(root), root, baseUrl)
    {
      root := root[MODEL_PROVIDER := Str(PROVIDER_ID)];
      if MODEL_PROVIDERS !in root {
        root := root[MODEL_PROVIDERS := Table(map[])];
      }
      if !root[MODEL_PROVIDERS].Table? {
        return false;
      }
      var providers := root[MODEL_PROVIDERS].entries;
      if PROVIDER_ID !in providers || !providers[PROVIDER_ID].Table? {
        providers := providers[PROVIDER_ID := Table(map[])];
      }
      var provider: map<string, Item> := map[];
      provider := provider["name" := Str("CodexManager")];
      provider := provider["base_url" := Str(baseUrl)];
      provider := provider["wire_api" := Str("responses")];
      assert Table(provider) == ProviderTable(baseUrl);
      providers := providers[PROVIDER_ID := Table(provider)];
      assert providers == Providers(old(root))[PROVIDER_ID := ProviderTable(baseUrl)];
      root := root[MODEL_PROVIDERS := Table(providers)];
      ok := true;
    }
  }

  lemma DirectPointsAway(d: map<string, Item>)
    ensures PointsAway(d, DirectPatched(d))
  {
    if MODEL_PROVIDERS in d && d[MODEL_PROVIDERS].Table? {
      var others := Providers(d) - {PROVIDER_ID};
      if k :| k in Providers(d) && k != PROVIDER_ID { assert k in others; }
      if others != map[] {
        var k :| k in others;
        assert k in Providers(d) && k != PROVIDER_ID;
      }
    }
  }

  // ---- Laws

  /** `r` is `d` without `model_provider`, without the managed provider, and without a provider table that holds
      nothing else; every other key is as it was. */
  ghost predicate IsWithoutGateway(d: map<string, Item>, r: map<string, Item>) {
    && MODEL_PROVIDER !in r
    && (MODEL_PROVIDERS in r <==> exists k :: k in Providers(d) && k != PROVIDER_ID)
    && (MODEL_PROVIDERS in r ==> r[MODEL_PROVIDERS] == Table(Providers(d) - {PROVIDER_ID}))
    && forall k | k != MODEL_PROVIDER && k != MODEL_PROVIDERS :: (k in r <==> k in d) && (k in r ==> r[k] == d[k])
  }

  /** The later gateway patch wins. */
  lemma GatewayAfterGateway(d: map<string, Item>, first: string, second: string)
    requires PatchableForGateway(d)
    ensures PatchableForGateway(GatewayPatched(d, first))
    ensures GatewayPatched(GatewayPatched(d, first), second) == GatewayPatched(d, second)
  {
    var once := Providers(GatewayPatched(d, first));
    assert once == Providers(d)[PROVIDER_ID := ProviderTable(first)];
    assert once[PROVIDER_ID := ProviderTable(second)] == Providers(d)[PROVIDER_ID := ProviderTable(second)];
  }

  /** A direct patch leaves no trace under a later gateway patch, and neither hides nor causes its failure. */
  lemma GatewayAfterDirect(d: map<string, Item>, baseUrl: string)
    ensures PatchableForGateway(DirectPatched(d)) <==> PatchableForGateway(d)
    ensures PatchableForGateway(d) ==> GatewayPatched(DirectPatched(d), baseUrl) == GatewayPatched(d, baseUrl)
  {
    if PatchableForGateway(d) {
      var others := Providers(d) - {PROVIDER_ID};
      assert Providers(DirectPatched(d)) == others;
      assert others[PROVIDER_ID := ProviderTable(baseUrl)] == Providers(d)[PROVIDER_ID := ProviderTable(baseUrl)];
    }
  }

  /** A direct patch undoes a successful gateway patch up to what the gateway patch overwrote. */
  lemma DirectAfterGateway(d: map<string, Item>, baseUrl: string)
    requires PatchableForGateway(d)
    ensures IsWithoutGateway(d, DirectPatched(GatewayPatched(d, baseUrl)))
  {
    var others := Providers(d) - {PROVIDER_ID};
    assert Providers(GatewayPatched(d, baseUrl)) - {PROVIDER_ID} == others;
    assert others == map[] <==> !exists k :: k in Providers(d) && k != PROVIDER_ID by {
      if k :| k in Providers(d) && k != PROVIDER_ID {
        assert k in others;
      }
      if others != map[] {
        var k :| k in others;
      }
    }
  }

  /** At most one document is a given document without the gateway. */
  lemma WithoutGatewayIsUnique(d: map<string, Item>, r: map<string, Item>, s: map<string, Item>)
    requires IsWithoutGateway(d, r) && IsWithoutGateway(d, s)
    ensures r == s
  {
    forall k ensures k in r <==> k in s {}
    forall k | k in r ensures r[k] == s[k] {
      if k == MODEL_PROVIDERS {} else {}
    }
  }

  /** Direct patching is idempotent, never leaves the managed provider selected, and touches nothing but the two keys. */
  lemma DirectIsStable(d: map<string, Item>)
    ensures DirectPatched(DirectPatched(d)) == DirectPatched(d)
    ensures !UsesManagedProvider(DirectPatched(d))
    ensures forall k | k != MODEL_PROVIDER && k != MODEL_PROVIDERS ::
              (k in DirectPatched(d) <==> k in d) && (k in d ==> DirectPatched(d)[k] == d[k])
  {
    if MODEL_PROVIDERS in d && d[MODEL_PROVIDERS].Table? {
      var others := Providers(d) - {PROVIDER_ID};
      assert others - {PROVIDER_ID} == others;
    }
  }

  /** A document that never had the gateway comes back from gateway and direct exactly as it was, unless it named a
      provider of its own or kept an empty provider table: those are what the round trip costs. */
  lemma RoundTripExactlyWhenUntouched(d: map<string, Item>, baseUrl: string)
    requires PatchableForGateway(d)
    ensures DirectPatched(GatewayPatched(d, baseUrl)) == d <==>
            (&& MODEL_PROVIDER !in d && PROVIDER_ID !in Providers(d)
             && (MODEL_PROVIDERS in d ==> Providers(d) != map[]))
  {
    var r := DirectPatched(GatewayPatched(d, baseUrl));
    DirectAfterGateway(d, baseUrl);
    if MODEL_PROVIDER !in d && PROVIDER_ID !in Providers(d) && (MODEL_PROVIDERS in d ==> Providers(d) != map[]) {
      assert Providers(d) - {PROVIDER_ID} == Providers(d);
      if MODEL_PROVIDERS in d {
        var k :| k in Providers(d);
        assert k != PROVIDER_ID;
      }
      assert IsWithoutGateway(d, d);
      WithoutGatewayIsUnique(d, r, d);
    }
  }
}
