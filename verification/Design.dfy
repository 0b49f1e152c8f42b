/** The in-memory design: components as `models.DesignComponent` declares them. */
module Design {
  import opened Wrappers

  datatype DependentApi = DependentApi(name: string, url: string, description: string, authentication: string)

  datatype ComponentAuth = ComponentAuth(kind: string, upstream: string)

  datatype Component = Component(
    name: string,
    componentType: string,
    language: string,
    dependsOn: seq<string>,
    entrypoint: string,
    buildpack: string,
    appPath: string,
    openApiSpec: string,
    instructions: string,
    apiSecurity: Option<string>,
    auth: Option<ComponentAuth>,
    dependentApis: seq<DependentApi>)

  /** `strings.ToLower`; component names are ASCII (no Unicode case folding). */
  function Lower(s: string): (r: string)
    ensures |r| == |s|
    ensures forall i :: 0 <= i < |s| ==> r[i] == if 'A' <= s[i] <= 'Z' then s[i] - 'A' + 'a' else s[i]
  {
    seq(|s|, i requires 0 <= i < |s| => LowerChar(s[i]))
  }

  function LowerChar(c: char): char {
    if 'A' <= c <= 'Z' then (c as int + 32) as char else c
  }

  /** The key under which the services look a component up: its name without regard to case. */
  function Key(c: Component): string {
    Lower(c.name)
  }

  function Keys(cs: seq<Component>): set<string> {
    set c | c in cs :: Key(c)
  }

  predicate DistinctNames(cs: seq<Component>) {
    forall i, j :: 0 <= i < j < |cs| ==> Key(cs[i]) != Key(cs[j])
  }
}
