/** `UserTypeDefinition` (up_bridge/components/user_types.py): a named
    application type whose keyword arguments are kept as its parameters.
    `cls` is the name of the instance's class and `bases` the names of the
    classes it inherits from, which is what `isinstance` consults. String
    hashing is the function `strHash`, fixed for a run of the program. */
module UserTypes {

  datatype UserTypeDefinition<V> = UserTypeDefinition(
    cls: string,
    bases: set<string>,
    name: string,
    parameters: map<string, V>)

  /** `UserTypeDefinition(name, **kwargs)`: an instance of the class itself. */
  function Create<V>(name: string, kwargs: map<string, V>): (u: UserTypeDefinition<V>)
    ensures u.name == name && u.parameters == kwargs
    ensures u.cls == "UserTypeDefinition" && u.bases == {"object"}
  {
    UserTypeDefinition("UserTypeDefinition", {"object"}, name, kwargs)
  }

  /** `isinstance(o, c)`, for the class named `c`. */
  predicate IsInstance<V>(o: UserTypeDefinition<V>, c: string)
  {
    c == o.cls || c in o.bases
  }

  /** `a.__eq__(b)` as written: `b` is an instance of `a`'s class and the
      parameters are equal; the names are not compared. */
  predicate Eq<V(==)>(a: UserTypeDefinition<V>, b: UserTypeDefinition<V>)
  {
    IsInstance(b, a.cls) && a.parameters == b.parameters
  }

  /** `__hash__`: the hash of the name alone. */
  function Hash<V>(u: UserTypeDefinition<V>, strHash: string -> int): int
  {
    strHash(u.name)
  }

  /** Equality does not look at names: renaming either side changes
      nothing, and two instances of one class are equal exactly when their
      parameters are. */
  lemma EqIgnoresName<V>(a: UserTypeDefinition<V>, b: UserTypeDefinition<V>, n: string, m: string)
    ensures Eq(a, b) <==> Eq(a.(name := n), b.(name := m))
    ensures a.cls == b.cls ==> (Eq(a, b) <==> a.parameters == b.parameters)
    ensures Eq(a, a)
  {
  }

  /** Two instances equal under `__eq__` may hash differently: the same
      parameters under the names "a" and "b", whenever "a" and "b" hash
      apart. */
  lemma EqualButHashDiffers<V>(strHash: string -> int)
    requires strHash("a") != strHash("b")
    ensures var a := Create<V>("a", map[]);
            var b := Create<V>("b", map[]);
            Eq(a, b) && Hash(a, strHash) != Hash(b, strHash)
  {
  }

  /** Equality that also compares names, as the hash requires. */
  predicate EqNamed<V(==)>(a: UserTypeDefinition<V>, b: UserTypeDefinition<V>)
  {
    Eq(a, b) && a.name == b.name
  }

  /** With names compared, equal instances hash alike under every string
      hash, and equality still implies equal parameters. */
  lemma EqNamedHashConsistent<V>(a: UserTypeDefinition<V>, b: UserTypeDefinition<V>, strHash: string -> int)
    requires EqNamed(a, b)
    ensures Hash(a, strHash) == Hash(b, strHash)
    ensures a.parameters == b.parameters
  {
  }

  /** `__str__`: the name. */
  function Str<V>(u: UserTypeDefinition<V>): (s: string)
    ensures s == u.name
  {
    u.name
  }

  /** `__repr__`: the class name, then the name in parentheses. */
  function Repr<V>(u: UserTypeDefinition<V>): (r: string)
    ensures |r| == |u.cls| + |Str(u)| + 2
    ensures r[..|u.cls|] == u.cls && r[|u.cls|] == '(' && r[|r| - 1] == ')'
    ensures r[|u.cls| + 1..|r| - 1] == Str(u)
  {
    u.cls + "(" + u.name + ")"
  }

  /** `keys()`: the parameter names. */
  function Keys<V>(u: UserTypeDefinition<V>): (ks: set<string>)
    ensures forall k :: k in ks <==> k in u.parameters
  {
    u.parameters.Keys
  }

  /** `values()`: the parameter values. */
  function Values<V(!new)>(u: UserTypeDefinition<V>): (vs: set<V>)
    ensures forall v :: v in vs <==> exists k :: k in u.parameters && u.parameters[k] == v
  {
    u.parameters.Values
  }

  /** Equal instances have the same keys and values, whatever their names. */
  lemma EqualKeysValues<V(!new)>(a: UserTypeDefinition<V>, b: UserTypeDefinition<V>)
    requires Eq(a, b)
    ensures Keys(a) == Keys(b) && Values(a) == Values(b)
  {
  }
}
