/** The temporary conversion-to-string function symbol
    (TemporaryDBTypeConversionToStringFunctionSymbolImpl.java): a
    placeholder conversion that must be replaced before the query is
    finished. */
module TemporaryConversion {
  import opened Wrappers

  const NAME_PREFIX := "TmpTo"

  datatype DBTermType = DBTermType(name: string)

  /** The symbol keeps both types, but reports no input type. */
  datatype TmpToStringSymbol = TmpToStringSymbol(inputBaseType: DBTermType, targetType: DBTermType)
  {
    /** "TmpTo" followed by the target type's name. */
    function Name(): (r: string)
      ensures |r| == |NAME_PREFIX| + |targetType.name|
      ensures r[..|NAME_PREFIX|] == NAME_PREFIX && r[|NAME_PREFIX|..] == targetType.name
    {
      NAME_PREFIX + targetType.name
    }

    /** `getInputType`: always empty, overriding the stored input type. */
    function InputType(): (r: Option<DBTermType>)
      ensures r.None?
    {
      None
    }

    predicate IsTemporary() {
      true
    }

    /** `isInjective`: never, whatever the arguments and the non-null
        variables. */
    predicate IsInjective<T>(arguments: seq<T>, nonNullVariables: set<string>) {
      false
    }

    predicate CanBePostProcessed() {
      false
    }
  }

  /** The name tells the target type: symbols with the same name convert to
      the same type. */
  lemma NameDeterminesTarget(f: TmpToStringSymbol, g: TmpToStringSymbol)
    requires f.Name() == g.Name()
    ensures f.targetType == g.targetType
  {
    assert f.targetType.name == f.Name()[|NAME_PREFIX|..];
  }

  /** The fixed answers of the symbol, for every symbol and every argument
      list. */
  lemma ConstantAnswers<T>(f: TmpToStringSymbol, arguments: seq<T>, nonNullVariables: set<string>)
    ensures f.IsTemporary() && !f.CanBePostProcessed()
    ensures !f.IsInjective(arguments, nonNullVariables)
    ensures f.InputType().None?
  {
  }
}
