/** The class registries the two metaclasses of the map keep: class name to
    class, for tiles and for objects. */
module Registry {

  /** The tile classes: the bare base `Point`, whose `load` is not implemented,
      and `Road`. */
  datatype TileClass = PointBase | RoadClass

  /** The object classes: the bare base `Object` and `Car`. */
  datatype ObjectClass = ObjectBase | CarClass

  /** The `classes` dictionary of a metaclass. */
  class ClassTable<C> {
    var classes: map<string, C>

    constructor ()
      ensures classes == map[]
    {
      classes := map[];
    }

    /** The metaclass `__new__` for class `name` with base classes `bases`:
        a class with at least one base is registered under its name,
        replacing any class registered under that name before; a class
        without bases leaves the table as it was. */
    method Define(name: string, bases: seq<string>, cls: C)
      modifies this
      ensures bases != [] ==> classes == old(classes)[name := cls]
      ensures bases == [] ==> classes == old(classes)
    {
      if bases != [] {
        classes := classes[name := cls];
      }
    }
  }

  /** What the registries hold once the map's classes are defined. */
  const SourceTileClasses: map<string, TileClass> := map["Road" := RoadClass]
  const SourceObjectClasses: map<string, ObjectClass> := map["Car" := CarClass]

  /** The class statements of the map, in their order: `Point` and `Object`
      (no bases), then `Road(Map.Point)` and `Car(Map.Object)`. */
  method DefineSourceClasses() returns (points: ClassTable<TileClass>, objects: ClassTable<ObjectClass>)
    ensures fresh(points) && fresh(objects)
    ensures points.classes == SourceTileClasses
    ensures objects.classes == SourceObjectClasses
    ensures "Point" !in points.classes && "Object" !in objects.classes
  {
    points := new ClassTable();
    objects := new ClassTable();
    points.Define("Point", [], PointBase);
    objects.Define("Object", [], ObjectBase);
    points.Define("Road", ["Point"], RoadClass);
    objects.Define("Car", ["Object"], CarClass);
  }
}
