/** The extension method through which callers reach the finder. */
module UiaExtension {
  import opened Results
  import opened Automation
  import opened PathFinder

  /** `FindByWPath(e, wPath)`: a fresh finder, asked for the path from `e`. */
  method FindByWPath(e: Node, wPath: string) returns (r: Result<Option<Node>>)
    ensures r == Evaluate(Registration(Registered), e, wPath)
  {
    var finder := new WPathFinder();
    r := finder.FindElement(e, wPath);
  }
}
