/** Address values of package addrs: instance keys, module paths, resources and the
    projections between the dynamic (keyed) and static (unkeyed) forms. */
module Addrs {

  datatype Option<+T> = None | Some(value: T)

  /** Go's int on a 64-bit platform. */
  type GoInt = i: int | -0x8000_0000_0000_0000 <= i < 0x8000_0000_0000_0000

  /** NoKey is Go's nil InstanceKey, WildcardKey the "unknown" key of partial addresses and
      AnyKey the private wildcard of move endpoints. */
  datatype InstanceKey =
    | NoKey
    | WildcardKey
    | AnyKey
    | IntKey(index: GoInt)
    | StringKey(text: string)

  datatype Step = Step(name: string, key: InstanceKey)

  /** A static module path, and a module instance path. */
  type Module = seq<string>
  type ModuleInstance = seq<Step>

  datatype ResourceMode = InvalidMode | Managed | Data | Ephemeral | ListMode

  datatype Resource = Resource(mode: ResourceMode, typeName: string, name: string)
  datatype ResourceInstance = ResourceInstance(resource: Resource, key: InstanceKey)
  datatype AbsResource = AbsResource(path: ModuleInstance, resource: Resource) {
    function Instance(key: InstanceKey): AbsResourceInstance {
      AbsResourceInstance(path, ResourceInstance(resource, key))
    }
  }
  datatype AbsResourceInstance = AbsResourceInstance(path: ModuleInstance, resource: ResourceInstance) {
    function ContainingResource(): AbsResource {
      AbsResource(path, resource.resource)
    }
  }
  datatype ConfigResource = ConfigResource(path: Module, resource: Resource)
  datatype AbsModuleCall = AbsModuleCall(path: ModuleInstance, call: string) {
    function Instance(key: InstanceKey): ModuleInstance {
      path + [Step(call, key)]
    }
  }

  lemma {:induction false} Regroup<T>(a: seq<T>, b: seq<T>, c: seq<T>)
    ensures (a + b) + c == a + (b + c)
  {
  }

  function StaticModule(m: ModuleInstance): (names: Module)
    ensures |names| == |m|
    ensures forall i | 0 <= i < |m| :: names[i] == m[i].name
  {
    seq(|m|, i requires 0 <= i < |m| => m[i].name)
  }

  /** The keys instances have once everything is known. */
  predicate RealKey(k: InstanceKey) { k.NoKey? || k.IntKey? || k.StringKey? }

  predicate RealPath(m: ModuleInstance) { forall i | 0 <= i < |m| :: RealKey(m[i].key) }

  predicate NoAnyKey(m: ModuleInstance) { forall i | 0 <= i < |m| :: m[i].key != AnyKey }

  /** m is an instance of the static module. */
  predicate InstanceOf(m: ModuleInstance, names: Module) {
    StaticModule(m) == names
  }

  lemma {:induction false} StaticModuleAppend(a: ModuleInstance, b: ModuleInstance)
    ensures StaticModule(a + b) == StaticModule(a) + StaticModule(b)
  {
  }

  /** The loop of ModuleInstance.Module. */
  method ModuleOf(m: ModuleInstance) returns (names: Module)
    ensures InstanceOf(m, names)
  {
    names := [];
    for i := 0 to |m|
      invariant names == StaticModule(m)[..i]
    {
      names := names + [m[i].name];
    }
  }

  /** The loop of AbsModuleCall.StaticModule: one static name for every instance of the call. */
  method StaticModuleOfCall(c: AbsModuleCall) returns (names: Module)
    ensures forall key :: InstanceOf(c.Instance(key), names)
  {
    names := [];
    for i := 0 to |c.path|
      invariant names == StaticModule(c.path)[..i]
    {
      names := names + [c.path[i].name];
    }
    names := names + [c.call];
  }
}
