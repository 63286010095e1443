/**
  The class graph the allowlist lookup walks, and the target object whose
  methods the proxy forwards.
 */
module Classes {
  import opened Wrappers
  import opened Values

  type ClassId = string

  /**
    An entry of a class's own `__dict__`. `funcName` is the `func_name` of
    the function stored there; `argtypes` is its `_esky_sudo_argtypes`
    attribute, which only functions wrapped by `allow_from_sudo` carry.
   */
  datatype Attr = Attr(funcName: string, argtypes: Option<seq<ArgType>>)

  /**
    One class: its `__bases__`, its own `__dict__`, and its `__mro__`, which
    only new-style classes have (the interpreter computes it).
   */
  datatype ClassInfo = ClassInfo(bases: seq<ClassId>, dict: map<string, Attr>, mro: Option<seq<ClassId>>)

  type Hierarchy = map<ClassId, ClassInfo>

  /** The class named `c`; a name the graph does not define reads as an empty old-style class. */
  function Info(h: Hierarchy, c: ClassId): ClassInfo {
    if c in h then h[c] else ClassInfo([], map[], None)
  }

  /**
    The object a proxy stands for. `hasProxy` says whether its `sudo_proxy`
    attribute is set, i.e. whether its allowed methods forward to an
    elevated copy instead of running in this process.
   */
  datatype Target = Target(name: string, h: Hierarchy, cls: ClassId, behave: Behaviour, hasProxy: bool)
}
