/** The values a guest's configuration holds, and the two kinds of guest. */
module Values {
  import opened Results
  import opened Text
  import opened Dicts

  /** A configuration value as the Proxmox API returns it: a string or an
      integer. */
  datatype Value = Str(s: string) | Num(n: int)

  /** Python truthiness: a non-empty string or a non-zero number. */
  predicate Truthy(v: Value) {
    match v
    case Str(s) => s != ""
    case Num(n) => n != 0
  }

  /** Python's `str(v)`. */
  function Render(v: Value): string {
    match v
    case Str(s) => s
    case Num(n) => IntToString(n)
  }

  /** A guest's configuration, in the order the API listed its keys. */
  type Config = Dict<Value>

  /** `config.get(key)` is truthy. */
  predicate IsSet(config: Config, key: string) {
    Get(config, key).Some? && Truthy(Get(config, key).value)
  }

  /** `config.get('agent', 0) == 1`: only the number 1 compares equal. */
  predicate AgentEnabled(config: Config) {
    Get(config, "agent") == Some(Num(1))
  }

  /** A string method was called on a number held under `key`; Python raises
      and the whole listing run ends. */
  datatype Fault = NotAString(key: string)

  /** QEMU virtual machines and LXC containers. */
  datatype GuestKind = Qemu | Lxc
}
