/**
 The entities of a symbol table under construction: files, source lines, functions, and the
 reporter that collects warnings.
 */
module Symbols {
  import opened Intervals

  class File {
    const name: string
    var sourceId: int

    constructor (name: string)
      ensures this.name == name && sourceId == -1
    {
      this.name := name;
      sourceId := -1;
    }
  }

  /** The code at `extent` comes from line `number` of `file`. */
  datatype Line = Line(extent: Span, file: File, number: int)

  class Function {
    const name: string
    const address: Address
    const ranges: seq<Span>
    const parameterSize: Address
    var lines: seq<Line>

    constructor (name: string, address: Address, ranges: seq<Span>, parameterSize: Address)
      ensures this.name == name && this.address == address && this.ranges == ranges
      ensures this.parameterSize == parameterSize && lines == []
    {
      this.name, this.address, this.ranges, this.parameterSize := name, address, ranges, parameterSize;
      lines := [];
    }
  }

  /** Warnings, recorded in the order they are given. */
  class Reporter {
    var uncoveredFunctions: seq<Function>
    var uncoveredLines: seq<Line>

    constructor ()
      ensures uncoveredFunctions == [] && uncoveredLines == []
    {
      uncoveredFunctions, uncoveredLines := [], [];
    }

    method UncoveredFunction(f: Function)
      modifies this`uncoveredFunctions
      ensures uncoveredFunctions == old(uncoveredFunctions) + [f]
    {
      uncoveredFunctions := uncoveredFunctions + [f];
    }

    method UncoveredLine(l: Line)
      modifies this`uncoveredLines
      ensures uncoveredLines == old(uncoveredLines) + [l]
    {
      uncoveredLines := uncoveredLines + [l];
    }
  }

  function Extents(lines: seq<Line>): seq<Span> {
    seq(|lines|, k requires 0 <= k < |lines| => lines[k].extent)
  }
}
