/** The shop object constructor factory: a shop class name is mapped to the
    name of its constructor class by string concatenation, and the generic
    object constructor is used when no dedicated one exists.

    Which classes exist is a parameter: the set of fully qualified class
    names that `class_exists` would find. */
module ConstructorFactory {
  import opened Wrappers

  /** The namespace every constructor class lives in, trailing separator
      included. */
  const Namespace := "OxidEsales\\TestingLibrary\\Services\\ShopObjectConstructor\\Constructor\\"

  const Suffix := "Constructor"

  /** The class name the generic constructor is formed from. */
  const Fallback := "Object"

  /** `formConstructorClass`: the fully qualified constructor class name for
      a shop class name. */
  function FormConstructorClass(className: string): (r: string)
    ensures |r| == |Namespace| + |className| + |Suffix|
    ensures r[..|Namespace|] == Namespace
    ensures r[|Namespace|..|Namespace| + |className|] == className
    ensures r[|Namespace| + |className|..] == Suffix
  {
    Namespace + className + Suffix
  }

  /** Reads a constructor class name back: the part between the namespace
      and the suffix, if the name has both. */
  function ConstructedClass(cls: string): Option<string> {
    if |cls| >= |Namespace| + |Suffix| && cls[..|Namespace|] == Namespace && cls[|cls| - |Suffix|..] == Suffix
    then Some(cls[|Namespace|..|cls| - |Suffix|])
    else None
  }

  /** Reading back a formed name gives the class name it was formed from. */
  lemma FormThenRead(className: string)
    ensures ConstructedClass(FormConstructorClass(className)) == Some(className)
  {
    var r := FormConstructorClass(className);
    assert |r| - |Suffix| == |Namespace| + |className|;
  }

  /** Every name that reads back is the formed name of what it reads back
      to. */
  lemma ReadThenForm(cls: string)
    requires ConstructedClass(cls).Some?
    ensures FormConstructorClass(ConstructedClass(cls).value) == cls
  {
    var n := ConstructedClass(cls).value;
    assert cls == cls[..|Namespace|] + n + cls[|cls| - |Suffix|..];
  }

  /** Different class names never share a constructor class name. */
  lemma FormInjective(a: string, b: string)
    requires FormConstructorClass(a) == FormConstructorClass(b)
    ensures a == b
  {
    FormThenRead(a);
    FormThenRead(b);
  }

  /** A constructor object: its class and the shop class name it was given. */
  datatype Instance = Instance(constructorClass: string, className: string)

  /** What `new $constructorClassName($sClassName)` does: it builds an
      instance, or fails because the class does not exist. */
  datatype Outcome = Built(instance: Instance) | ClassNotFound(constructorClass: string)

  /** The class `getConstructor` picks: the dedicated constructor when it
      exists, otherwise the generic one, whose existence is not looked at. */
  function ChosenClass(known: set<string>, className: string): (r: string)
    ensures r == FormConstructorClass(className) || r == FormConstructorClass(Fallback)
    ensures FormConstructorClass(className) in known ==> r == FormConstructorClass(className)
    ensures FormConstructorClass(className) !in known ==> r == FormConstructorClass(Fallback)
  {
    var own := FormConstructorClass(className);
    if own in known then own else FormConstructorClass(Fallback)
  }

  /** `getConstructor`: instantiates the chosen class with the original
      class name. */
  function GetConstructor(known: set<string>, className: string): (r: Outcome)
    ensures r.Built? <==> ChosenClass(known, className) in known
    ensures r.Built? ==> r.instance.constructorClass == ChosenClass(known, className)
    ensures r.Built? ==> r.instance.className == className
    ensures r.Built? ==> r.instance.constructorClass in known
    ensures r.ClassNotFound? ==> r.constructorClass == FormConstructorClass(Fallback)
  {
    var cls := ChosenClass(known, className);
    if cls in known then Built(Instance(cls, className)) else ClassNotFound(cls)
  }

  /** A dedicated constructor that exists is always the one used. */
  lemma DedicatedConstructorWins(known: set<string>, className: string)
    requires FormConstructorClass(className) in known
    ensures GetConstructor(known, className).Built?
    ensures ConstructedClass(GetConstructor(known, className).instance.constructorClass) == Some(className)
  {
    FormThenRead(className);
  }

  /** Without a dedicated constructor the generic one is chosen and is not
      checked again: the call succeeds exactly when the generic constructor
      exists, and otherwise fails naming the generic class. */
  lemma FallbackNotRechecked(known: set<string>, className: string)
    requires FormConstructorClass(className) !in known
    ensures GetConstructor(known, className).Built? <==> FormConstructorClass(Fallback) in known
    ensures GetConstructor(known, className).Built? ==>
              ConstructedClass(GetConstructor(known, className).instance.constructorClass) == Some(Fallback)
    ensures !GetConstructor(known, className).Built? ==>
              GetConstructor(known, className) == ClassNotFound(FormConstructorClass(Fallback))
  {
    FormThenRead(Fallback);
  }

  /** Whatever the outcome, the class named has the namespace prefix and the
      `Constructor` suffix, and it reads back to the class name itself or
      to `Object`. */
  lemma ChosenClassShape(known: set<string>, className: string)
    ensures var cls := ChosenClass(known, className);
            && cls[..|Namespace|] == Namespace
            && cls[|cls| - |Suffix|..] == Suffix
            && ConstructedClass(cls) in {Some(className), Some(Fallback)}
  {
    FormThenRead(className);
    FormThenRead(Fallback);
  }

  /** Only two classes matter: adding classes other than the dedicated and
      the generic constructor changes nothing. */
  lemma OnlyTwoClassesMatter(known: set<string>, extra: set<string>, className: string)
    requires FormConstructorClass(className) !in extra && FormConstructorClass(Fallback) !in extra
    ensures GetConstructor(known + extra, className) == GetConstructor(known, className)
  {}

  /** With no classes loaded at all, the generic constructor is named and
      the instantiation fails. */
  lemma NothingLoaded(className: string)
    ensures GetConstructor({}, className) == ClassNotFound(FormConstructorClass(Fallback))
  {}
}
