/**
 Concrete component files and what `parseTemplate` makes of them, derived
 from the general contracts of the `Components` module.
 */
module Scenarios {
  import FilePath
  import opened Components

  /** The `spec.inputs` of a file declaring `app_name` without a default and
      `stage` defaulting to "deploy". */
  const DeployInputs: map<string, Inputs> :=
    map["app_name" := Inputs("Application name", ""),
        "stage" := Inputs("Pipeline stage", "deploy")]

  const DeployOrder: seq<InputData> :=
    [InputData("app_name", "Application name", true, ""),
     InputData("stage", "Pipeline stage", false, "deploy")]

  lemma DeployOrderIsOrdered()
    ensures StrictlyOrdered(DeployOrder)
  {
  }

  lemma DeployOrderIsCollation()
    ensures Collation(DeployInputs, DeployOrder)
  {
    var m, e := DeployInputs, DeployOrder;
    assert m.Keys == {"app_name", "stage"};
    forall k | k in m ensures exists i | 0 <= i < |e| :: e[i].name == k {
      if k == "app_name" { assert e[0].name == k; } else { assert e[1].name == k; }
    }
  }

  /** The file `deploy.yml` names the component `deploy`. */
  lemma DeployName(dir: string)
    requires FilePath.IsDirPrefix(dir)
    ensures ComponentName(dir + "deploy.yml") == "deploy"
  {
    assert "deploy.yml" == "deploy" + "." + "yml";
    ComponentNameOfFile(dir, "deploy", "yml");
  }

  /** The inputs `app_name` and `stage` of `deploy.yml` can only come out as
      `app_name` (required) followed by `stage` (optional). */
  lemma BasicParsing(s: seq<InputData>)
    requires Collation(DeployInputs, s)
    requires StrictlyOrdered(s)
    ensures s == DeployOrder
    ensures |s| == 2 && s[0].name == "app_name" && s[0].required
    ensures s[1].name == "stage" && !s[1].required && s[1].default == "deploy"
  {
    DeployOrderIsCollation();
    DeployOrderIsOrdered();
    CollationUnique(DeployInputs, s, DeployOrder);
  }

  /** The `spec.inputs` of a file declaring two required and two optional
      inputs out of order. */
  const UnorderedInputs: map<string, Inputs> :=
    map["zebra" := Inputs("Optional Z", "z"),
        "alpha" := Inputs("Required A", ""),
        "beta" := Inputs("Optional B", "b"),
        "gamma" := Inputs("Required G", "")]

  const RequiredFirstOrder: seq<InputData> :=
    [InputData("alpha", "Required A", true, ""),
     InputData("gamma", "Required G", true, ""),
     InputData("beta", "Optional B", false, "b"),
     InputData("zebra", "Optional Z", false, "z")]

  lemma RequiredFirstOrderIsCollation()
    ensures Collation(UnorderedInputs, RequiredFirstOrder)
  {
    var m, e := UnorderedInputs, RequiredFirstOrder;
    assert m.Keys == {"zebra", "alpha", "beta", "gamma"};
    forall k | k in m ensures exists i | 0 <= i < |e| :: e[i].name == k {
      if k == "alpha" { assert e[0].name == k; }
      else if k == "gamma" { assert e[1].name == k; }
      else if k == "beta" { assert e[2].name == k; }
      else { assert e[3].name == k; }
    }
  }

  lemma RequiredFirstOrderIsOrdered()
    ensures StrictlyOrdered(RequiredFirstOrder)
  {
  }

  /** Two required and two optional inputs declared out of order: the
      required ones come first, each group sorted by name. */
  lemma SortingRequiredFirst(s: seq<InputData>)
    requires Collation(UnorderedInputs, s)
    requires StrictlyOrdered(s)
    ensures s == RequiredFirstOrder
    ensures [s[0].name, s[1].name, s[2].name, s[3].name] == ["alpha", "gamma", "beta", "zebra"]
    ensures s[0].required && s[1].required && !s[2].required && !s[3].required
  {
    RequiredFirstOrderIsCollation();
    RequiredFirstOrderIsOrdered();
    CollationUnique(UnorderedInputs, s, RequiredFirstOrder);
  }

  /** An empty `spec.inputs` in `simple.yml`: the component is named `simple`
      and has no inputs; this is not an error. */
  lemma NoInputs(dir: string, s: seq<InputData>)
    requires FilePath.IsDirPrefix(dir)
    requires Collation(map[], s)
    ensures ComponentName(dir + "simple.yml") == "simple"
    ensures s == []
  {
    assert "simple.yml" == "simple" + "." + "yml";
    ComponentNameOfFile(dir, "simple", "yml");
  }

  /** The file `dir/deploy.yml`, decoded: an empty description and the inputs
      `app_name` and `stage`. */
  const DeployPath: string := "dir/deploy.yml"

  const DeployDocument: Document := Parsed(Config(Spec("", DeployInputs)))

  lemma DeployPathName()
    ensures ComponentName(DeployPath) == "deploy"
  {
    assert DeployPath == "dir/" + "deploy.yml";
    DeployName("dir/");
  }

  /** `parseTemplate` on `dir/deploy.yml` succeeds with the component `deploy`
      and its two inputs in order. */
  method ParseDeployFile() returns (data: ComponentData, err: Option<TemplateError>)
    ensures err == None
    ensures data == ComponentData("deploy", "", DeployOrder)
  {
    data, err := ParseTemplate(DeployPath, DeployDocument);
    DeployPathName();
    BasicParsing(data.inputs);
  }
}
